/** Folding helpers preserves the value, or the first trap, of every call and of every
    term in every environment, and the termination of both. */
module HelperInliningRuns {
  import opened Sets
  import opened Core
  import opened CoreLoop
  import opened Calls
  import opened HelperInlining

  // ----- the renaming is injective and fresh -----

  function Mentions(e: Expr): set<nat>
    decreases e, 0
  {
    match e
    case Local(x) => {x}
    case Let(local, value, body) => Mentions(value) + {local} + Mentions(body)
    case If(cond, thn, els) => Mentions(cond) + Mentions(thn) + Mentions(els)
    case Prim(_, args) => MentionsAll(args)
    case Recur(args) => MentionsAll(args)
    case App(func, args) => Mentions(func) + MentionsAll(args)
    case MakeData(_, args) => MentionsAll(args)
    case Foreign(_, args) => MentionsAll(args)
    case DataTag(base) => Mentions(base)
    case DataField(base, _) => Mentions(base)
    case MakeClosure(_, captures) => ParamSet(captures)
    case Dup(x, body) => {x} + Mentions(body)
    case Drop(x, body) => {x} + Mentions(body)
    case FreeReuse(x, body) => {x} + Mentions(body)
    case Reset(value, x, body) => Mentions(value) + {x} + Mentions(body)
    case Join(params, body) => ParamSet(params) + Mentions(body)
    case _ => {}
  }

  function MentionsAll(args: seq<Expr>): set<nat>
    decreases args, 1
  {
    if args == [] then {} else Mentions(args[0]) + MentionsAll(args[1..])
  }

  ghost predicate Extended(m: map<nat, nat>, m2: map<nat, nat>) {
    forall x :: x in m ==> x in m2 && m2[x] == m[x]
  }

  ghost predicate Injective(m: map<nat, nat>) {
    forall x, y :: x in m && y in m && m[x] == m[y] ==> x == y
  }

  /** New locals get distinct slots of their own. */
  ghost predicate GrowsTo(r: Renaming, r2: Renaming) {
    && r.next <= r2.next && Extended(r.subst, r2.subst)
    && (forall x :: x in r2.subst && x !in r.subst ==> r.next <= r2.subst[x] < r2.next)
    && (forall x, y :: x in r2.subst && y in r2.subst && r2.subst[x] == r2.subst[y] ==>
          x == y || x in r.subst || y in r.subst)
  }

  lemma GrowsTrans(a: Renaming, b: Renaming, c: Renaming)
    requires GrowsTo(a, b) && GrowsTo(b, c)
    ensures GrowsTo(a, c)
  {
  }

  lemma LocalGrows(x: nat, r: Renaming)
    ensures GrowsTo(r, RemapLocal(x, r)) && x in RemapLocal(x, r).subst
  {
  }

  lemma {:induction false} IdsGrow(ids: seq<nat>, r: Renaming)
    ensures GrowsTo(r, RemapIds(ids, r)) && ParamSet(ids) <= RemapIds(ids, r).subst.Keys
  {
    if ids != [] {
      var r1 := RemapLocal(ids[0], r);
      LocalGrows(ids[0], r);
      IdsGrow(ids[1..], r1);
      GrowsTrans(r, r1, RemapIds(ids[1..], r1));
      assert ids == [ids[0]] + ids[1..];
    }
  }

  ghost predicate Covers(r: Renaming, r2: Renaming, mentioned: set<nat>) {
    GrowsTo(r, r2) && mentioned <= r2.subst.Keys
  }

  lemma CoversThen(a: Renaming, b: Renaming, c: Renaming, s: set<nat>, t: set<nat>)
    requires Covers(a, b, s) && Covers(b, c, t)
    ensures Covers(a, c, s + t)
  {
    GrowsTrans(a, b, c);
  }

  /** A value, then a binder over the rest of `e`. */
  lemma {:induction false} ValueCovers(e: Expr, value: Expr, x: nat, body: Expr, r: Renaming)
    requires value < e && body < e
    ensures Covers(r, Remap(body, RemapLocal(x, Remap(value, r))), Mentions(value) + ({x} + Mentions(body)))
    decreases e, 0
  {
    hide Covers;
    var r1 := Remap(value, r);
    RemapCovers(value, r);
    BinderCovers(x, body, r1);
    CoversThen(r, r1, Remap(body, RemapLocal(x, r1)), Mentions(value), {x} + Mentions(body));
  }

  lemma {:induction false} IfCovers(e: Expr, r: Renaming)
    requires e.If?
    ensures Covers(r, Remap(e, r), Mentions(e))
    decreases e, 0
  {
    hide Covers;
    var r1 := Remap(e.cond, r);
    var r2 := Remap(e.thn, r1);
    RemapCovers(e.cond, r);
    RemapCovers(e.thn, r1);
    RemapCovers(e.els, r2);
    CoversThen(r, r1, r2, Mentions(e.cond), Mentions(e.thn));
    CoversThen(r, r2, Remap(e.els, r2), Mentions(e.cond) + Mentions(e.thn), Mentions(e.els));
  }

  lemma {:induction false} RemapCovers(e: Expr, r: Renaming)
    ensures Covers(r, Remap(e, r), Mentions(e))
    decreases e, 1
  {
    hide Covers, RemapLocal, RemapIds, RemapAll, MentionsAll;
    match e
    case Local(x) => LocalCovers(x, r);
    case Let(x, value, body) =>
      ValueCovers(e, value, x, body, r);
      assert Mentions(value) + ({x} + Mentions(body)) == Mentions(e);
    case If(_, _, _) => IfCovers(e, r);
    case Prim(_, args) => RemapAllCovers(args, r);
    case Recur(args) => RemapAllCovers(args, r);
    case MakeData(_, args) => RemapAllCovers(args, r);
    case Foreign(_, args) => RemapAllCovers(args, r);
    case App(func, args) =>
      var r1 := Remap(func, r);
      RemapCovers(func, r);
      RemapAllCovers(args, r1);
      CoversThen(r, r1, RemapAll(args, r1), Mentions(func), MentionsAll(args));
    case DataTag(base) => RemapCovers(base, r);
    case DataField(base, _) => RemapCovers(base, r);
    case MakeClosure(_, captures) => IdsCover(captures, r);
    case Dup(x, body) => BinderCovers(x, body, r);
    case Drop(x, body) => BinderCovers(x, body, r);
    case FreeReuse(x, body) => BinderCovers(x, body, r);
    case Reset(value, x, body) =>
      ValueCovers(e, value, x, body, r);
      assert Mentions(value) + ({x} + Mentions(body)) == Mentions(e);
    case Join(params, body) =>
      var r1 := RemapIds(params, r);
      IdsCover(params, r);
      RemapCovers(body, r1);
      CoversThen(r, r1, Remap(body, r1), ParamSet(params), Mentions(body));
    case _ => NothingCovers(r);
  }

  lemma NothingCovers(r: Renaming)
    ensures Covers(r, r, {})
  {
  }

  lemma LocalCovers(x: nat, r: Renaming)
    ensures Covers(r, RemapLocal(x, r), {x})
  {
    LocalGrows(x, r);
  }

  lemma IdsCover(ids: seq<nat>, r: Renaming)
    ensures Covers(r, RemapIds(ids, r), ParamSet(ids))
  {
    IdsGrow(ids, r);
  }

  lemma {:induction false} BinderCovers(x: nat, body: Expr, r: Renaming)
    ensures Covers(r, Remap(body, RemapLocal(x, r)), {x} + Mentions(body))
    decreases body, 2
  {
    LocalCovers(x, r);
    RemapCovers(body, RemapLocal(x, r));
    CoversThen(r, RemapLocal(x, r), Remap(body, RemapLocal(x, r)), {x}, Mentions(body));
  }

  lemma {:induction false} RemapAllCovers(args: seq<Expr>, r: Renaming)
    ensures Covers(r, RemapAll(args, r), MentionsAll(args))
    decreases args, 1
  {
    if args == [] {
      NothingCovers(r);
    } else {
      var r1 := Remap(args[0], r);
      RemapCovers(args[0], r);
      RemapAllCovers(args[1..], r1);
      CoversThen(r, r1, RemapAll(args[1..], r1), Mentions(args[0]), MentionsAll(args[1..]));
    }
  }

  // ----- a renamed term means the same -----

  /** The renamed environment holds exactly the renamed locals that are bound. */
  ghost predicate Match(env: CEnv, m: map<nat, nat>, env2: CEnv) {
    forall x :: x in m ==> (x in env <==> m[x] in env2) && (x in env ==> env2[m[x]] == env[x])
  }

  /** Every closure is of a lifted lambda numbered below `k`: with `k` being 1 there is none,
      so none can come to mean another definition's code. */
  predicate ClosuresBelow(e: Expr, k: nat)
    decreases e, 0
  {
    match e
    case Let(_, value, body) => ClosuresBelow(value, k) && ClosuresBelow(body, k)
    case If(cond, thn, els) => ClosuresBelow(cond, k) && ClosuresBelow(thn, k) && ClosuresBelow(els, k)
    case Prim(_, args) => AllClosuresBelow(args, k)
    case Recur(args) => AllClosuresBelow(args, k)
    case App(func, args) => ClosuresBelow(func, k) && AllClosuresBelow(args, k)
    case MakeData(_, args) => AllClosuresBelow(args, k)
    case Foreign(_, args) => AllClosuresBelow(args, k)
    case DataTag(base) => ClosuresBelow(base, k)
    case DataField(base, _) => ClosuresBelow(base, k)
    case MakeClosure(fn, _) => 0 < fn < k
    case Dup(_, body) => ClosuresBelow(body, k)
    case Drop(_, body) => ClosuresBelow(body, k)
    case FreeReuse(_, body) => ClosuresBelow(body, k)
    case Reset(value, _, body) => ClosuresBelow(value, k) && ClosuresBelow(body, k)
    case Join(_, body) => ClosuresBelow(body, k)
    case _ => true
  }

  predicate AllClosuresBelow(args: seq<Expr>, k: nat)
    decreases args, 1
  {
    args == [] || (ClosuresBelow(args[0], k) && AllClosuresBelow(args[1..], k))
  }

  lemma {:induction false} RenameSame(ops: Prims, p: Program, d: nat, d2: nat, e: Expr, m: map<nat, nat>,
      env: CEnv, env2: CEnv, fuel: nat)
    requires Injective(m) && Mentions(e) <= m.Keys && Match(env, m, env2) && ClosuresBelow(e, 1)
    ensures Run(ops, p, d2, Rename(e, m), env2, fuel) == Run(ops, p, d, e, env, fuel)
    decreases e, 1
  {
    hide Match, Injective, Apply, Node;
    match e
    case Local(x) => LocalSame(ops, p, d, d2, x, m, env, env2, fuel);
    case Let(_, _, _) => RenameLet(ops, p, d, d2, e, m, env, env2, fuel);
    case If(_, _, _) => RenameIf(ops, p, d, d2, e, m, env, env2, fuel);
    case Prim(_, args) => RenameAllSame(ops, p, d, d2, args, m, env, env2, fuel);
    case MakeData(_, args) => RenameAllSame(ops, p, d, d2, args, m, env, env2, fuel);
    case Foreign(_, args) => RenameAllSame(ops, p, d, d2, args, m, env, env2, fuel);
    case App(func, args) =>
      RenameSame(ops, p, d, d2, func, m, env, env2, fuel);
      RenameAllSame(ops, p, d, d2, args, m, env, env2, fuel);
    case DataTag(base) => RenameSame(ops, p, d, d2, base, m, env, env2, fuel);
    case DataField(base, _) => RenameSame(ops, p, d, d2, base, m, env, env2, fuel);
    case _ =>
  }

  lemma LocalSame(ops: Prims, p: Program, d: nat, d2: nat, x: nat, m: map<nat, nat>, env: CEnv, env2: CEnv, fuel: nat)
    requires x in m && Match(env, m, env2)
    ensures Run(ops, p, d2, Local(At(m, x)), env2, fuel) == Run(ops, p, d, Local(x), env, fuel)
  {
  }

  lemma {:induction false} RenameIf(ops: Prims, p: Program, d: nat, d2: nat, e: Expr, m: map<nat, nat>, env: CEnv,
      env2: CEnv, fuel: nat)
    requires e.If? && Injective(m) && Mentions(e) <= m.Keys && Match(env, m, env2) && ClosuresBelow(e, 1)
    ensures Run(ops, p, d2, Rename(e, m), env2, fuel) == Run(ops, p, d, e, env, fuel)
    decreases e, 0
  {
    hide Match, Injective;
    RenameSame(ops, p, d, d2, e.cond, m, env, env2, fuel);
    RenameSame(ops, p, d, d2, e.thn, m, env, env2, fuel);
    RenameSame(ops, p, d, d2, e.els, m, env, env2, fuel);
  }

  lemma {:induction false} RenameLet(ops: Prims, p: Program, d: nat, d2: nat, e: Expr, m: map<nat, nat>, env: CEnv,
      env2: CEnv, fuel: nat)
    requires e.Let? && Injective(m) && Mentions(e) <= m.Keys && Match(env, m, env2) && ClosuresBelow(e, 1)
    ensures Run(ops, p, d2, Rename(e, m), env2, fuel) == Run(ops, p, d, e, env, fuel)
    decreases e, 0
  {
    hide Match, Injective;
    RenameSame(ops, p, d, d2, e.value, m, env, env2, fuel);
    var v := Run(ops, p, d, e.value, env, fuel);
    if v.Yields? {
      MatchBind(env, m, env2, e.local, v.v);
      RenameSame(ops, p, d, d2, e.body, m, env[e.local := v.v], env2[m[e.local] := v.v], fuel);
    }
  }

  lemma MatchBind(env: CEnv, m: map<nat, nat>, env2: CEnv, x: nat, v: CVal)
    requires Injective(m) && x in m && Match(env, m, env2)
    ensures Match(env[x := v], m, env2[m[x] := v])
  {
  }

  lemma {:induction false} RenameAllSame(ops: Prims, p: Program, d: nat, d2: nat, args: seq<Expr>,
      m: map<nat, nat>, env: CEnv, env2: CEnv, fuel: nat)
    requires Injective(m) && MentionsAll(args) <= m.Keys && Match(env, m, env2) && AllClosuresBelow(args, 1)
    ensures RunAll(ops, p, d2, RenameAll(args, m), env2, fuel) == RunAll(ops, p, d, args, env, fuel)
    decreases args, 1
  {
    if args != [] {
      hide Match, Injective;
      RenameSame(ops, p, d, d2, args[0], m, env, env2, fuel);
      RenameAllSame(ops, p, d, d2, args[1..], m, env, env2, fuel);
      assert RenameAll(args, m)[1..] == RenameAll(args[1..], m);
    }
  }

  lemma {:induction false} RenameClosures(e: Expr, m: map<nat, nat>, k: nat)
    requires ClosuresBelow(e, 1)
    ensures ClosuresBelow(Rename(e, m), k)
    decreases e, 0
  {
    match e
    case Let(_, value, body) => RenameClosures(value, m, k); RenameClosures(body, m, k);
    case If(cond, thn, els) => RenameClosures(cond, m, k); RenameClosures(thn, m, k); RenameClosures(els, m, k);
    case Prim(_, args) => RenameAllClosures(args, m, k);
    case Recur(args) => RenameAllClosures(args, m, k);
    case App(func, args) => RenameClosures(func, m, k); RenameAllClosures(args, m, k);
    case MakeData(_, args) => RenameAllClosures(args, m, k);
    case Foreign(_, args) => RenameAllClosures(args, m, k);
    case DataTag(base) => RenameClosures(base, m, k);
    case DataField(base, _) => RenameClosures(base, m, k);
    case Dup(_, body) => RenameClosures(body, m, k);
    case Drop(_, body) => RenameClosures(body, m, k);
    case FreeReuse(_, body) => RenameClosures(body, m, k);
    case Reset(value, _, body) => RenameClosures(value, m, k); RenameClosures(body, m, k);
    case Join(_, body) => RenameClosures(body, m, k);
    case _ =>
  }

  lemma {:induction false} RenameAllClosures(args: seq<Expr>, m: map<nat, nat>, k: nat)
    requires AllClosuresBelow(args, 1)
    ensures AllClosuresBelow(RenameAll(args, m), k)
    decreases args, 1
  {
    if args != [] {
      RenameClosures(args[0], m, k);
      RenameAllClosures(args[1..], m, k);
      assert RenameAll(args, m)[1..] == RenameAll(args[1..], m);
    }
  }

  // ----- programs as lowering produces them -----

  /** Every definition has an entry, and closures name its own lifted lambdas. */
  ghost predicate WellFormed(p: Program) {
    && (forall d :: d in p.defs ==> p.defs[d].fns != [])
    && forall d, i :: d in p.defs && 0 <= i < |p.defs[d].fns| ==> ClosuresBelow(p.defs[d].fns[i].body, |p.defs[d].fns|)
  }

  lemma {:induction false} InlineClosures(p: Program, d: nat, e: Expr, next: nat, k: nat)
    requires Marked(p) && WellFormed(p) && d in p.defs && Refs(e) <= DefRefs(p.defs[d].fns) && ClosuresBelow(e, k)
    ensures ClosuresBelow(Inline(p, d, e, next).e, k)
    decreases ReachSet(p, d), e, 0
  {
    hide Marked, WellFormed;
    match e
    case Let(_, value, body) =>
      InlineClosures(p, d, value, next, k);
      InlineClosures(p, d, body, Inline(p, d, value, next).next, k);
    case If(cond, thn, els) =>
      var c := Inline(p, d, cond, next);
      InlineClosures(p, d, cond, next, k);
      InlineClosures(p, d, thn, c.next, k);
      InlineClosures(p, d, els, Inline(p, d, thn, c.next).next, k);
    case Prim(_, args) => InlineAllClosures(p, d, args, next, k);
    case Recur(args) => InlineAllClosures(p, d, args, next, k);
    case MakeData(_, args) => InlineAllClosures(p, d, args, next, k);
    case Foreign(_, args) => InlineAllClosures(p, d, args, next, k);
    case App(func, args) =>
      var f := Inline(p, d, func, next);
      InlineClosures(p, d, func, next, k);
      InlineAllClosures(p, d, args, f.next, k);
      if Foldable(p, d, func, |args|) {
        var r := InlineAll(p, d, args, f.next);
        CalleeReachesLess(p, d, func.name);
        EntryClosures(p, d, func.name);
        BuildClosures(p.defs[func.name].fns[0].params, FoldedEntry(p, func.name), r.args, r.next, k);
      }
    case DataTag(base) => InlineClosures(p, d, base, next, k);
    case DataField(base, _) => InlineClosures(p, d, base, next, k);
    case Dup(_, body) => InlineClosures(p, d, body, next, k);
    case Drop(_, body) => InlineClosures(p, d, body, next, k);
    case FreeReuse(_, body) => InlineClosures(p, d, body, next, k);
    case Reset(value, _, body) =>
      InlineClosures(p, d, value, next, k);
      InlineClosures(p, d, body, Inline(p, d, value, next).next, k);
    case Join(_, body) => InlineClosures(p, d, body, next, k);
    case _ =>
  }

  /** A foldable helper's folded body has no lifted lambda. */
  lemma {:induction false} EntryClosures(p: Program, d: nat, c: nat)
    requires Marked(p) && WellFormed(p) && RefersTo(p, d, c) && Summary(p, c).Some?
    ensures ClosuresBelow(FoldedEntry(p, c), 1)
    decreases ReachSet(p, c), p.defs[c].fns[0].body, 1
  {
    InlineClosures(p, c, p.defs[c].fns[0].body, NextFree(p.defs[c].fns), 1);
  }

  lemma {:induction false} InlineAllClosures(p: Program, d: nat, args: seq<Expr>, next: nat, k: nat)
    requires Marked(p) && WellFormed(p) && d in p.defs && RefsAll(args) <= DefRefs(p.defs[d].fns) &&
      AllClosuresBelow(args, k)
    ensures AllClosuresBelow(InlineAll(p, d, args, next).args, k)
    decreases ReachSet(p, d), args, 1
  {
    if args != [] {
      var a := Inline(p, d, args[0], next);
      InlineClosures(p, d, args[0], next, k);
      InlineAllClosures(p, d, args[1..], a.next, k);
      assert InlineAll(p, d, args, next).args[1..] == InlineAll(p, d, args[1..], a.next).args;
    }
  }

  lemma BuildClosures(params: seq<nat>, body: Expr, args: seq<Expr>, next: nat, k: nat)
    requires |params| <= |args| && ClosuresBelow(body, 1) && AllClosuresBelow(args, k)
    ensures ClosuresBelow(Build(params, body, args, next).e, k)
  {
    RenameClosures(body, CalleeRenaming(params, body, |args|, next).subst, k);
    LocalsClosures(Slots(next + |params|, |args| - |params|), k);
    ChainClosures(next, args, Spliced(params, body, |args|, next), k);
  }

  lemma {:induction false} LocalsClosures(ids: seq<nat>, k: nat)
    ensures AllClosuresBelow(Locals(ids), k)
  {
    if ids != [] {
      LocalsClosures(ids[1..], k);
      assert Locals(ids)[1..] == Locals(ids[1..]);
    }
  }

  lemma {:induction false} ChainClosures(first: nat, args: seq<Expr>, body: Expr, k: nat)
    requires AllClosuresBelow(args, k) && ClosuresBelow(body, k)
    ensures ClosuresBelow(Chain(first, args, body), k)
    decreases |args|
  {
    if args != [] { ChainClosures(first + 1, args[1..], body, k); }
  }

  // ----- the two programs side by side -----

  /** Call budget of the original that covers `n` in the folded program, when folded
      calls nest at most `h` deep from here. */
  function Cover(p: Program, n: nat, h: nat): nat {
    n * (|p.defs| + 1) + h
  }

  /** What is compared: the original with budget `m` and the folded program with budget
      `n`, inside definition `d`. Forward, the folded side may not run out before the
      original; backward, the other way round. */
  datatype Pair = Pair(ops: Prims, p: Program, d: nat, m: nat, n: nat, forward: bool)

  ghost predicate Fits(x: Pair) {
    && Marked(x.p) && WellFormed(x.p) && x.d in x.p.defs
    && if x.forward then x.m <= x.n else x.m >= Cover(x.p, x.n, |ReachSet(x.p, x.d)|)
  }

  predicate Agree(forward: bool, a: Result, b: Result) {
    a == b || (if forward then a else b) == Timeout
  }

  predicate AgreeAll(forward: bool, a: Results, b: Results) {
    a == b || (if forward then a else b) == Halts(Timeout)
  }

  ghost predicate AgreeBelow(env: CEnv, env2: CEnv, lim: nat) {
    forall x :: x < lim ==> (x in env <==> x in env2) && (x in env ==> env2[x] == env[x])
  }

  ghost predicate ClearBetween(env: CEnv, a: nat, b: nat) {
    forall x :: x in env ==> x < a || b <= x
  }

  /** The environments agree on the caller's own locals, and the slots about to be
      allocated are free. */
  ghost predicate Ready(x: Pair, e: Expr, lim: nat, next: nat, env: CEnv, env2: CEnv) {
    && Fits(x) && Refs(e) <= DefRefs(x.p.defs[x.d].fns) && Above(e) <= lim <= next
    && AgreeBelow(env, env2, lim) && ClearBetween(env2, next, Inline(x.p, x.d, e, next).next)
  }

  ghost predicate ReadyAll(x: Pair, args: seq<Expr>, lim: nat, next: nat, env: CEnv, env2: CEnv) {
    && Fits(x) && RefsAll(args) <= DefRefs(x.p.defs[x.d].fns) && AboveAll(args) <= lim <= next
    && AgreeBelow(env, env2, lim) && ClearBetween(env2, next, InlineAll(x.p, x.d, args, next).next)
  }

  function RunOld(x: Pair, e: Expr, env: CEnv): Result {
    Run(x.ops, x.p, x.d, e, env, x.m)
  }

  function RunNew(x: Pair, e: Expr, env: CEnv): Result
    requires Marked(x.p)
  {
    Run(x.ops, Inlined(x.p), x.d, e, env, x.n)
  }

  function RunOldAll(x: Pair, args: seq<Expr>, env: CEnv): Results {
    RunAll(x.ops, x.p, x.d, args, env, x.m)
  }

  function RunNewAll(x: Pair, args: seq<Expr>, env: CEnv): Results
    requires Marked(x.p)
  {
    RunAll(x.ops, Inlined(x.p), x.d, args, env, x.n)
  }

  ghost predicate Same(x: Pair, e: Expr, next: nat, env: CEnv, env2: CEnv)
    requires Marked(x.p) && x.d in x.p.defs && Refs(e) <= DefRefs(x.p.defs[x.d].fns)
  {
    Agree(x.forward, RunOld(x, e, env), RunNew(x, Inline(x.p, x.d, e, next).e, env2))
  }

  ghost predicate SameAll(x: Pair, args: seq<Expr>, next: nat, env: CEnv, env2: CEnv)
    requires Marked(x.p) && x.d in x.p.defs && RefsAll(args) <= DefRefs(x.p.defs[x.d].fns)
  {
    AgreeAll(x.forward, RunOldAll(x, args, env), RunNewAll(x, InlineAll(x.p, x.d, args, next).args, env2))
  }

  /** Both runs of every term agree. */
  lemma {:induction false} Simulates(x: Pair, e: Expr, lim: nat, next: nat, env: CEnv, env2: CEnv)
    requires Ready(x, e, lim, next, env, env2)
    ensures Same(x, e, next, env, env2)
    decreases x.m, 1, e, 2
  {
    hide Ready, Apply;
    match e
    case Local(_) => SimulatesLeaf(x, e, lim, next, env, env2);
    case Global(_) => SimulatesLeaf(x, e, lim, next, env, env2);
    case MakeClosure(_, _) => SimulatesLeaf(x, e, lim, next, env, env2);
    case Let(_, _, _) => SimulatesLet(x, e, lim, next, env, env2);
    case If(_, _, _) => SimulatesIf(x, e, lim, next, env, env2);
    case App(_, _) => SimulatesApp(x, e, lim, next, env, env2);
    case _ => SimulatesNode(x, e, lim, next, env, env2);
  }

  lemma {:induction false} SimulatesNode(x: Pair, e: Expr, lim: nat, next: nat, env: CEnv, env2: CEnv)
    requires !(e.Local? || e.Global? || e.MakeClosure? || e.Let? || e.If? || e.App?) &&
      Ready(x, e, lim, next, env, env2)
    ensures Same(x, e, next, env, env2)
    decreases x.m, 1, e, 1
  {
    hide AgreeBelow, ClearBetween, Fits, Apply, Inlined;
    match e
    case Prim(_, args) => SimulatesAll(x, args, lim, next, env, env2);
    case MakeData(_, args) => SimulatesAll(x, args, lim, next, env, env2);
    case Foreign(_, args) => SimulatesAll(x, args, lim, next, env, env2);
    case DataTag(base) => Simulates(x, base, lim, next, env, env2);
    case DataField(base, _) => Simulates(x, base, lim, next, env, env2);
    case _ =>
  }

  lemma {:induction false} SimulatesAll(x: Pair, args: seq<Expr>, lim: nat, next: nat, env: CEnv, env2: CEnv)
    requires ReadyAll(x, args, lim, next, env, env2)
    ensures SameAll(x, args, next, env, env2)
    decreases x.m, 1, args, 1
  {
    if args != [] {
      var a := Inline(x.p, x.d, args[0], next);
      ReadyHead(x, args, lim, next, env, env2);
      hide Ready, ReadyAll, Fits, Inlined;
      Simulates(x, args[0], lim, next, env, env2);
      SimulatesAll(x, args[1..], lim, a.next, env, env2);
      assert InlineAll(x.p, x.d, args, next).args[1..] == InlineAll(x.p, x.d, args[1..], a.next).args;
    }
  }

  lemma ReadyHead(x: Pair, args: seq<Expr>, lim: nat, next: nat, env: CEnv, env2: CEnv)
    requires args != [] && ReadyAll(x, args, lim, next, env, env2)
    ensures Ready(x, args[0], lim, next, env, env2)
    ensures ReadyAll(x, args[1..], lim, Inline(x.p, x.d, args[0], next).next, env, env2)
  {
  }

  lemma {:induction false} SimulatesLet(x: Pair, e: Expr, lim: nat, next: nat, env: CEnv, env2: CEnv)
    requires e.Let? && Ready(x, e, lim, next, env, env2)
    ensures Same(x, e, next, env, env2)
    decreases x.m, 1, e, 0
  {
    var v := Inline(x.p, x.d, e.value, next);
    assert Ready(x, e.value, lim, next, env, env2);
    Simulates(x, e.value, lim, next, env, env2);
    var r := RunOld(x, e.value, env);
    if r.Yields? {
      assert Ready(x, e.body, lim, v.next, env[e.local := r.v], env2[e.local := r.v]);
      hide Ready, Fits, Inlined;
      Simulates(x, e.body, lim, v.next, env[e.local := r.v], env2[e.local := r.v]);
    }
  }

  lemma IfReady(x: Pair, e: Expr, lim: nat, next: nat, env: CEnv, env2: CEnv)
    requires e.If? && Ready(x, e, lim, next, env, env2)
    ensures Marked(x.p) && x.d in x.p.defs && Refs(e) <= DefRefs(x.p.defs[x.d].fns)
    ensures Refs(e.cond) <= Refs(e) && Refs(e.thn) <= Refs(e) && Refs(e.els) <= Refs(e)
    ensures Ready(x, e.cond, lim, next, env, env2)
    ensures Ready(x, e.thn, lim, Inline(x.p, x.d, e.cond, next).next, env, env2)
    ensures var c := Inline(x.p, x.d, e.cond, next);
      Ready(x, e.els, lim, Inline(x.p, x.d, e.thn, c.next).next, env, env2)
  {
    hide Marked, WellFormed;
  }

  lemma InlineIf(x: Pair, e: Expr, next: nat)
    requires e.If? && Marked(x.p) && x.d in x.p.defs && Refs(e) <= DefRefs(x.p.defs[x.d].fns)
    ensures var c := Inline(x.p, x.d, e.cond, next);
      var t := Inline(x.p, x.d, e.thn, c.next);
      Inline(x.p, x.d, e, next).e == If(c.e, t.e, Inline(x.p, x.d, e.els, t.next).e)
  {
    hide Marked;
  }

  lemma RunIf(ops: Prims, p: Program, d: nat, e: Expr, env: CEnv, fuel: nat)
    requires e.If?
    ensures var c := Run(ops, p, d, e.cond, env, fuel);
      Run(ops, p, d, e, env, fuel) ==
        if !c.Yields? then c
        else if c.v.Plain? && c.v.v.BoolV? then Run(ops, p, d, if c.v.v.b then e.thn else e.els, env, fuel)
        else Wrong
  {
  }

  lemma {:induction false} SimulatesIf(x: Pair, e: Expr, lim: nat, next: nat, env: CEnv, env2: CEnv)
    requires e.If? && Ready(x, e, lim, next, env, env2)
    ensures Same(x, e, next, env, env2)
    decreases x.m, 1, e, 0
  {
    hide Ready, Fits, Inlined, Inline, Run, Refs, DefRefs;
    IfReady(x, e, lim, next, env, env2);
    var c := Inline(x.p, x.d, e.cond, next);
    var t := Inline(x.p, x.d, e.thn, c.next);
    Simulates(x, e.cond, lim, next, env, env2);
    Simulates(x, e.thn, lim, c.next, env, env2);
    Simulates(x, e.els, lim, t.next, env, env2);
    InlineIf(x, e, next);
    RunIf(x.ops, x.p, x.d, e, env, x.m);
    RunIf(x.ops, Inlined(x.p), x.d, Inline(x.p, x.d, e, next).e, env2, x.n);
  }

  lemma {:induction false} CaptureSame(env: CEnv, env2: CEnv, ids: seq<nat>, lim: nat)
    requires AgreeBelow(env, env2, lim) && AboveIds(ids) <= lim
    ensures Capture(env2, ids) == Capture(env, ids)
    decreases |ids|
  {
    if ids != [] { CaptureSame(env, env2, ids[1..], lim); }
  }

  lemma {:induction false} SimulatesLeaf(x: Pair, e: Expr, lim: nat, next: nat, env: CEnv, env2: CEnv)
    requires (e.Local? || e.Global? || e.MakeClosure?) && Ready(x, e, lim, next, env, env2)
    ensures Same(x, e, next, env, env2)
    decreases x.m, 1, e, 0
  {
    match e
    case Global(name) =>
      if name in x.p.defs && x.p.defs[name].fns[0].params == [] && x.m > 0 && x.n > 0 {
        CoverAny(x);
        hide Cover;
        SimulatesCode(x, name, 0, map[]);
      }
      GlobalOld(x, name, env);
      GlobalNew(x, name, env2);
      if x.m == 0 && !x.forward { CoverZero(x); }
    case MakeClosure(_, captures) => CaptureSame(env, env2, captures, lim);
    case Local(_) =>
  }

  lemma GlobalOld(x: Pair, name: nat, env: CEnv)
    requires Fits(x)
    ensures RunOld(x, Global(name), env) ==
      if name !in x.p.defs then Node(x.ops, GlobalNode(name), [])
      else if x.p.defs[name].fns[0].params != [] then Yields(Fun(name, 0, [], []))
      else if x.m == 0 then Timeout else Run(x.ops, x.p, name, x.p.defs[name].fns[0].body, map[], x.m - 1)
  {
    assert RunOld(x, Global(name), env) == RunGlobal(x.ops, x.p, name, x.m);
  }

  lemma GlobalCases(ops: Prims, p: Program, name: nat, n: nat)
    requires name in p.defs ==> p.defs[name].fns != []
    ensures RunGlobal(ops, p, name, n) ==
      if name !in p.defs then Node(ops, GlobalNode(name), [])
      else if p.defs[name].fns[0].params != [] then Yields(Fun(name, 0, [], []))
      else if n == 0 then Timeout
      else Run(ops, p, name, p.defs[name].fns[0].body, map[], n - 1)
  {
    hide Run;
  }

  lemma GlobalNew(x: Pair, name: nat, env: CEnv)
    requires Fits(x)
    ensures RunNew(x, Global(name), env) ==
      if name !in x.p.defs then Node(x.ops, GlobalNode(name), [])
      else if x.p.defs[name].fns[0].params != [] then Yields(Fun(name, 0, [], []))
      else if x.n == 0 then Timeout
      else Run(x.ops, Inlined(x.p), name, Inlined(x.p).defs[name].fns[0].body, map[], x.n - 1)
  {
    hide Inlined, WellFormed, Run, RunGlobal, Cover, ReachSet;
    InlinedEntries(x.p);
    var q := Inlined(x.p);
    assert name in q.defs <==> name in x.p.defs;
    assert name in q.defs ==> |q.defs[name].fns| > 0 && q.defs[name].fns[0].params == x.p.defs[name].fns[0].params;
    GlobalRuns(x.ops, q, x.d, name, env, x.n);
    GlobalCases(x.ops, q, name, x.n);
  }

  lemma GlobalRuns(ops: Prims, p: Program, d: nat, name: nat, env: CEnv, n: nat)
    ensures Run(ops, p, d, Global(name), env, n) == RunGlobal(ops, p, name, n)
  {
  }

  lemma InlinedEntries(p: Program)
    requires Marked(p) && WellFormed(p)
    ensures Inlined(p).defs.Keys == p.defs.Keys
    ensures forall d :: d in p.defs ==> |Inlined(p).defs[d].fns| == |p.defs[d].fns| > 0
    ensures forall d :: d in p.defs ==> Inlined(p).defs[d].fns[0].params == p.defs[d].fns[0].params
  {
    forall d | d in p.defs
      ensures |Inlined(p).defs[d].fns| > 0 && Inlined(p).defs[d].fns[0].params == p.defs[d].fns[0].params
    {
      var k := FnInlined(p, d, 0, 0, NextFree(p.defs[d].fns));
    }
  }

  lemma CoverAny(x: Pair)
    requires Fits(x)
    ensures !x.forward ==> x.m >= Cover(x.p, x.n, 0)
  {
  }

  lemma CoverZero(x: Pair)
    requires Fits(x) && !x.forward && x.m == 0
    ensures x.n == 0
  {
    CoverAtLeast(x.p, x.n, |ReachSet(x.p, x.d)|);
  }

  lemma CoverAtLeast(p: Program, n: nat, h: nat)
    ensures Cover(p, n, h) >= n
  {
    assert n * (|p.defs| + 1) == n * |p.defs| + n;
  }

  /** Spending one call leaves enough for any definition. */
  lemma CoverStep(p: Program, m: nat, n: nat, d: nat)
    requires m >= Cover(p, n, 0) && n > 0
    ensures m > 0 && m - 1 >= Cover(p, n - 1, |ReachSet(p, d)|) && m - 1 >= Cover(p, n - 1, 0)
  {
    SubsetSize(ReachSet(p, d), p.defs.Keys);
    assert n * (|p.defs| + 1) == (n - 1) * (|p.defs| + 1) + |p.defs| + 1;
  }

  /** The body a function has after folding. */
  lemma {:induction false} FnInlined(p: Program, d: nat, i: nat, j: nat, next: nat) returns (k: nat)
    requires Marked(p) && d in p.defs && i <= j < |p.defs[d].fns|
    ensures next <= k && Refs(p.defs[d].fns[j].body) <= DefRefs(p.defs[d].fns)
    ensures InlineFns(p, d, i, next)[j - i] == p.defs[d].fns[j].(body := Inline(p, d, p.defs[d].fns[j].body, k).e)
    decreases j - i
  {
    var fns := p.defs[d].fns;
    BodyRefs(fns, i);
    hide Inline, Marked, Refs, DefRefs;
    if i == j {
      k := next;
    } else {
      k := FnInlined(p, d, i + 1, j, Inline(p, d, fns[i].body, next).next);
      assert InlineFns(p, d, i, next)[j - i] ==
          InlineFns(p, d, i + 1, Inline(p, d, fns[i].body, next).next)[j - (i + 1)];
    }
  }

  lemma {:induction false} FnBelow(fns: seq<Fn>, i: nat)
    requires i < |fns|
    ensures Above(fns[i].body) <= NextFree(fns) && AboveIds(fns[i].params) <= NextFree(fns) &&
      AboveIds(fns[i].captures) <= NextFree(fns)
    decreases i
  {
    if i > 0 { FnBelow(fns[1..], i - 1); }
  }

  predicate Spent(x: Pair) {
    if x.forward then x.m <= x.n else x.m >= Cover(x.p, x.n, 0)
  }

  /** A body entered with an environment of its own locals. */
  lemma EntryReady(x: Pair, e: Expr, lim: nat, next: nat, env: CEnv)
    requires Fits(x) && Refs(e) <= DefRefs(x.p.defs[x.d].fns) && Above(e) <= lim <= next
    requires forall y :: y in env ==> y < lim
    ensures Ready(x, e, lim, next, env, env)
  {
    hide Fits, Refs, DefRefs, Above, Inline;
  }

  lemma CodeFits(x: Pair, c: nat)
    requires Marked(x.p) && WellFormed(x.p) && c in x.p.defs && x.m > 0 && x.n > 0 && Spent(x)
    ensures Fits(Pair(x.ops, x.p, c, x.m - 1, x.n - 1, x.forward))
  {
    hide Marked, WellFormed;
    if !x.forward { CoverStep(x.p, x.m, x.n, c); }
  }

  lemma InlinedFn(p: Program, c: nat, i: nat)
    requires Marked(p) && c in p.defs && i < |p.defs[c].fns|
    ensures c in Inlined(p).defs && Inlined(p).defs[c].fns == InlineFns(p, c, 0, NextFree(p.defs[c].fns))
    ensures |Inlined(p).defs[c].fns| == |p.defs[c].fns|
  {
    hide InlineFns, NextFree;
  }

  /** Function bodies agree after one call is spent on both sides. */
  lemma {:induction false} SimulatesCode(x: Pair, c: nat, i: nat, env: CEnv)
    requires Marked(x.p) && WellFormed(x.p) && c in x.p.defs && i < |x.p.defs[c].fns|
    requires x.m > 0 && x.n > 0 && Spent(x) && forall y :: y in env ==> y < NextFree(x.p.defs[c].fns)
    ensures Agree(x.forward, Run(x.ops, x.p, c, x.p.defs[c].fns[i].body, env, x.m - 1),
                  Run(x.ops, Inlined(x.p), c, Inlined(x.p).defs[c].fns[i].body, env, x.n - 1))
    decreases x.m, 0, 0
  {
    hide Inline, InlineFns, Run, Cover, Ready, Marked, WellFormed, Refs, DefRefs, Above, NextFree, Inlined;
    CodeFits(x, c);
    var fns := x.p.defs[c].fns;
    var k := FnInlined(x.p, c, 0, i, NextFree(fns));
    FnBelow(fns, i);
    InlinedFn(x.p, c, i);
    var y := Pair(x.ops, x.p, c, x.m - 1, x.n - 1, x.forward);
    EntryReady(y, fns[i].body, NextFree(fns), k, env);
    Simulates(y, fns[i].body, NextFree(fns), k, env, env);
  }

  lemma {:induction false} BindBelow<V>(params: seq<nat>, vals: seq<V>, lim: nat)
    requires |params| == |vals| && forall i :: i in params ==> i < lim
    ensures forall y :: y in Bind(params, vals) ==> y < lim
    decreases |params|
  {
    if params != [] {
      var n := |params| - 1;
      assert forall i :: i in params[..n] ==> i in params;
      BindBelow(params[..n], vals[..n], lim);
      assert params[n] in params;
    }
  }

  /** Applying the same value to the same arguments gives the same result in both. */
  lemma {:induction false} SimulatesApply(x: Pair, f: CVal, args: seq<CVal>)
    requires Marked(x.p) && WellFormed(x.p) && Spent(x)
    ensures Agree(x.forward, Apply(x.ops, x.p, f, args, x.m), Apply(x.ops, Inlined(x.p), f, args, x.n))
    decreases x.m, 0, 2
  {
    if args == [] {
      return;
    }
    SameHasCode(x.p, f);
    if HasCode(x.p, f) {
      SameCode(x.p, f);
      var code := CodeOf(x.p, f);
      if |f.args| + |args| >= |code.params| && |f.captures| == |code.captures| {
        hide Apply, Run, Inlined;
        SimulatesBody(x, f, args);
      } else {
        hide Inlined, Run;
      }
    } else {
      hide Inlined, Run;
    }
  }

  lemma OneSpent(x: Pair)
    requires Spent(x) && (x.m == 0 || x.n == 0)
    ensures if x.forward then x.m == 0 else x.n == 0
  {
    CoverAtLeast(x.p, x.n, 0);
  }

  /** The body of a function with enough arguments, and what is done with its result. */
  lemma {:induction false} SimulatesBody(x: Pair, f: CVal, args: seq<CVal>)
    requires Marked(x.p) && WellFormed(x.p) && Spent(x) && args != [] && HasCode(x.p, f) && HasCode(Inlined(x.p), f)
    requires CodeOf(Inlined(x.p), f) == Inlined(x.p).defs[f.def].fns[f.fn]
    requires CodeOf(Inlined(x.p), f).params == CodeOf(x.p, f).params &&
      CodeOf(Inlined(x.p), f).captures == CodeOf(x.p, f).captures
    requires |f.args| + |args| >= |CodeOf(x.p, f).params| && |f.captures| == |CodeOf(x.p, f).captures|
    ensures Agree(x.forward, Apply(x.ops, x.p, f, args, x.m), Apply(x.ops, Inlined(x.p), f, args, x.n))
    decreases x.m, 0, 1
  {
    hide Apply, Run, Inlined, Bind, NextFree, Cover, WellFormed, Marked, Spent;
    var code, all := CodeOf(x.p, f), f.args + args;
    EnoughArguments(x.ops, x.p, f, args, x.m);
    EnoughArguments(x.ops, Inlined(x.p), f, args, x.n);
    if x.m > 0 && x.n > 0 {
      var env := Bind(code.captures + code.params, f.captures + all[..|code.params|]);
      ArgumentsBelow(x.p, f, f.captures + all[..|code.params|]);
      SimulatesCode(x, f.def, f.fn, env);
      var r := Run(x.ops, x.p, f.def, code.body, env, x.m - 1);
      if r.Yields? {
        SpendBoth(x, f.def);
        SimulatesApply(x.(m := x.m - 1, n := x.n - 1), r.v, all[|code.params|..]);
      }
    } else {
      OneSpent(x);
    }
  }

  lemma ArgumentsBelow(p: Program, f: CVal, vals: seq<CVal>)
    requires HasCode(p, f) && |vals| == |CodeOf(p, f).captures| + |CodeOf(p, f).params|
    ensures forall y :: y in Bind(CodeOf(p, f).captures + CodeOf(p, f).params, vals) ==> y < NextFree(p.defs[f.def].fns)
  {
    FnBelow(p.defs[f.def].fns, f.fn);
    BindBelow(CodeOf(p, f).captures + CodeOf(p, f).params, vals, NextFree(p.defs[f.def].fns));
  }

  lemma SpendBoth(x: Pair, d: nat)
    requires Spent(x) && x.m > 0 && x.n > 0
    ensures Spent(x.(m := x.m - 1, n := x.n - 1))
  {
    if !x.forward { CoverStep(x.p, x.m, x.n, d); }
  }

  lemma SameHasCode(p: Program, f: CVal)
    requires Marked(p)
    ensures HasCode(Inlined(p), f) <==> HasCode(p, f)
  {
  }

  lemma SameCode(p: Program, f: CVal)
    requires Marked(p) && HasCode(p, f)
    ensures HasCode(Inlined(p), f) && CodeOf(Inlined(p), f).params == CodeOf(p, f).params
    ensures CodeOf(Inlined(p), f).captures == CodeOf(p, f).captures
    ensures CodeOf(Inlined(p), f) == Inlined(p).defs[f.def].fns[f.fn]
  {
    var k := FnInlined(p, f.def, 0, f.fn, NextFree(p.defs[f.def].fns));
  }
  // ----- a folded call -----

  lemma {:induction false} SimulatesApp(x: Pair, e: Expr, lim: nat, next: nat, env: CEnv, env2: CEnv)
    requires e.App? && Ready(x, e, lim, next, env, env2)
    ensures Same(x, e, next, env, env2)
    decreases x.m, 1, e, 1
  {
    if Foldable(x.p, x.d, e.func, |e.args|) {
      SimulatesFold(x, e, lim, next, env, env2);
    } else {
      var f := Inline(x.p, x.d, e.func, next);
      assert Ready(x, e.func, lim, next, env, env2);
      assert ReadyAll(x, e.args, lim, f.next, env, env2);
      Simulates(x, e.func, lim, next, env, env2);
      SimulatesAll(x, e.args, lim, f.next, env, env2);
      CoverAny(x);
      hide Ready, ReadyAll, Inlined, Cover, Apply;
      var r, a := RunOld(x, e.func, env), RunOldAll(x, e.args, env);
      var g := InlineAll(x.p, x.d, e.args, f.next);
      var s, b := RunNew(x, f.e, env2), RunNewAll(x, g.args, env2);
      assert RunOld(x, e, env) == if !r.Yields? then r else ApplyAll(x.ops, x.p, r.v, a, x.m);
      assert RunNew(x, App(f.e, g.args), env2) == if !s.Yields? then s else ApplyAll(x.ops, Inlined(x.p), s.v, b, x.n);
      hide Run, Inline;
      if r.Yields? && a.Each? {
        SimulatesApply(x, r.v, a.vals);
      }
    }
  }

  /** The slots an argument chain fills. */
  function Extend(env: CEnv, first: nat, vals: seq<CVal>): CEnv
    decreases |vals|
  {
    if vals == [] then env else Extend(env[first := vals[0]], first + 1, vals[1..])
  }

  /** Consecutive slots hold these values. */
  predicate InSlots(env: CEnv, first: nat, vals: seq<CVal>) {
    forall y :: first <= y < first + |vals| ==> y in env && env[y] == vals[y - first]
  }

  lemma {:induction false} ExtendAt(env: CEnv, first: nat, vals: seq<CVal>)
    requires ClearBetween(env, first, first + |vals|)
    ensures var big := Extend(env, first, vals);
      && (forall y :: y in big <==> y in env || first <= y < first + |vals|)
      && (forall y :: y in big ==> big[y] == if first <= y < first + |vals| then vals[y - first] else env[y])
    decreases |vals|
  {
    if vals != [] {
      var env1 := env[first := vals[0]];
      ExtendAt(env1, first + 1, vals[1..]);
      assert forall y :: y in env1 <==> y in env || y == first;
    }
  }

  /** Arguments are evaluated in source order, the first abort decides, and the body sees
      their values in their slots. */
  predicate Chained(forward: bool, a: Results, c: Result, tail: Result) {
    if a.Each? then c == tail || (!forward && c == Timeout)
    else c == a.o || (if forward then a.o == Timeout else c == Timeout)
  }

  lemma ReadyRefs(x: Pair, args: seq<Expr>, lim: nat, next: nat, env: CEnv, env2: CEnv)
    requires ReadyAll(x, args, lim, next, env, env2)
    ensures Marked(x.p) && x.d in x.p.defs && RefsAll(args) <= DefRefs(x.p.defs[x.d].fns)
    ensures args != [] ==> Refs(args[0]) <= RefsAll(args) && RefsAll(args[1..]) <= RefsAll(args)
  {
  }

  lemma ReadyRest(x: Pair, args: seq<Expr>, lim: nat, next: nat, env: CEnv, env2: CEnv, first: nat, v: CVal)
    requires args != [] && ReadyAll(x, args, lim, next, env, env2) && InlineAll(x.p, x.d, args, next).next <= first
    ensures ReadyAll(x, args[1..], lim, Inline(x.p, x.d, args[0], next).next, env, env2[first := v])
  {
    hide Inline;
  }

  lemma ChainRuns(x: Pair, first: nat, args: seq<Expr>, body: Expr, env: CEnv)
    requires Marked(x.p)
    ensures RunNew(x, Chain(first, args, body), env) ==
      if args == [] then RunNew(x, body, env)
      else
        var v := RunNew(x, args[0], env);
        if v.Yields? then RunNew(x, Chain(first + 1, args[1..], body), env[first := v.v]) else v
  {
    hide Inlined;
  }

  lemma AllRuns(x: Pair, args: seq<Expr>, env: CEnv)
    ensures RunOldAll(x, args, env) ==
      if args == [] then Each([])
      else
        var v := RunOld(x, args[0], env);
        if v.Yields? then Cons(v.v, RunOldAll(x, args[1..], env)) else Halts(v)
  {
  }

  lemma FoldedHead(x: Pair, args: seq<Expr>, next: nat)
    requires args != [] && Marked(x.p) && x.d in x.p.defs && RefsAll(args) <= DefRefs(x.p.defs[x.d].fns)
    ensures var h := Inline(x.p, x.d, args[0], next);
      var rest := InlineAll(x.p, x.d, args[1..], h.next);
      var r := InlineAll(x.p, x.d, args, next);
      r.args == [h.e] + rest.args && r.args[1..] == rest.args && r.next == rest.next
  {
    hide Inline, Marked;
  }

  lemma {:induction false} SimulatesChain(x: Pair, args: seq<Expr>, lim: nat, next: nat, env: CEnv, env2: CEnv,
      first: nat, body: Expr)
    requires ReadyAll(x, args, lim, next, env, env2) && InlineAll(x.p, x.d, args, next).next <= first
    ensures var a := RunOldAll(x, args, env);
      Chained(x.forward, a, RunNew(x, Chain(first, InlineAll(x.p, x.d, args, next).args, body), env2),
              if a.Each? then RunNew(x, body, Extend(env2, first, a.vals)) else Wrong)
    decreases x.m, 1, args, 1
  {
    hide Ready, ReadyAll, Inlined, Refs, DefRefs, Run, RunAll, Inline, InlineAll, Chain;
    ReadyRefs(x, args, lim, next, env, env2);
    var chained := InlineAll(x.p, x.d, args, next).args;
    ChainRuns(x, first, chained, body, env2);
    AllRuns(x, args, env);
    if args != [] {
      var h := Inline(x.p, x.d, args[0], next);
      FoldedHead(x, args, next);
      ReadyHead(x, args, lim, next, env, env2);
      Simulates(x, args[0], lim, next, env, env2);
      var r := RunOld(x, args[0], env);
      if r.Yields? {
        ReadyRest(x, args, lim, next, env, env2, first, r.v);
        SimulatesChain(x, args[1..], lim, h.next, env, env2[first := r.v], first + 1, body);
      }
    }
  }

  /** Parameters are renamed to the slots that hold their values. */
  ghost predicate SlotsFor(m: map<nat, nat>, env: CEnv, vals: seq<CVal>, first: nat, count: nat) {
    && m.Keys == env.Keys && count <= |vals|
    && forall y :: y in m ==> first <= m[y] < first + count && env[y] == vals[m[y] - first]
  }

  lemma {:induction false} SlotsBound(params: seq<nat>, vals: seq<CVal>, first: nat)
    requires |vals| == |params|
    ensures var m := Bind<nat>(params, Slots(first, |params|));
      Injective(m) && SlotsFor(m, Bind(params, vals), vals, first, |params|)
    decreases |params|
  {
    if params != [] {
      var n := |params| - 1;
      assert Slots(first, |params|)[..n] == Slots(first, n);
      SlotsBound(params[..n], vals[..n], first);
    }
  }

  lemma GrownInjective(r: Renaming, r2: Renaming)
    requires GrowsTo(r, r2) && Injective(r.subst) && forall y :: y in r.subst ==> r.subst[y] < r.next
    ensures Injective(r2.subst)
  {
    forall y, z | y in r2.subst && z in r2.subst && r2.subst[y] == r2.subst[z] ensures y == z {
      assert y in r.subst <==> z in r.subst;
    }
  }

  /** The callee's own environment and the caller's slots match under the renaming. */
  lemma EntryMatches(params: seq<nat>, body: Expr, vals: seq<CVal>, first: nat, env: CEnv)
    requires |params| <= |vals|
    requires InSlots(env, first, vals)
    requires ClearBetween(env, first + |vals|, CalleeRenaming(params, body, |vals|, first).next)
    ensures var m := CalleeRenaming(params, body, |vals|, first).subst;
      Injective(m) && Mentions(body) <= m.Keys && Match(Bind(params, vals[..|params|]), m, env)
  {
    var inner := Bind(params, vals[..|params|]);
    var r := Renaming(Bind(params, Slots(first, |params|)), first + |vals|);
    var r2 := Remap(body, r);
    SlotsBound(params, vals[..|params|], first);
    RemapCovers(body, r);
    SlotsBelow(r, inner, vals[..|params|], first, |params|);
    GrownInjective(r, r2);
    hide Remap, Bind, Mentions, Injective, GrowsTo, InSlots, ClearBetween, SlotsFor;
    forall y | y in r2.subst
      ensures (y in inner <==> r2.subst[y] in env) && (y in inner ==> env[r2.subst[y]] == inner[y])
    {
      MatchOne(r, r2, inner, vals, first, |params|, env, y);
    }
  }

  lemma SlotsBelow(r: Renaming, inner: CEnv, vals: seq<CVal>, first: nat, count: nat)
    requires SlotsFor(r.subst, inner, vals, first, count) && first + count <= r.next
    ensures forall y :: y in r.subst ==> r.subst[y] < r.next
  {
  }

  lemma MatchOne(r: Renaming, r2: Renaming, inner: CEnv, vals: seq<CVal>, first: nat, count: nat, env: CEnv, y: nat)
    requires GrowsTo(r, r2) && count <= |vals| && SlotsFor(r.subst, inner, vals[..count], first, count) && y in r2.subst
    requires r.next == first + |vals| && InSlots(env, first, vals) && ClearBetween(env, r.next, r2.next)
    ensures (y in inner <==> r2.subst[y] in env) && (y in inner ==> env[r2.subst[y]] == inner[y])
  {
  }

  lemma CalleeFits(x: Pair, c: nat)
    requires Fits(x) && RefersTo(x.p, x.d, c) && Summary(x.p, c).Some? && x.m > 0
    ensures c in x.p.defs && |x.p.defs[c].fns| > 0 && x.p.defs[c].fns[0].captures == []
    ensures x.p.defs[c].fns[0].params != [] && Summary(x.p, c).value == |x.p.defs[c].fns[0].params|
    ensures Fits(Pair(x.ops, x.p, c, x.m - 1, x.n, x.forward))
  {
    hide Marked, WellFormed;
    SummaryFacts(x.p, c);
    CalleeReachesLess(x.p, x.d, c);
    SubsetSize(ReachSet(x.p, c), ReachSet(x.p, x.d));
  }

  /** The original runs the callee's body and the folded program its folded body. */
  lemma {:induction false} SimulatesCallee(x: Pair, c: nat, vals: seq<CVal>)
    requires Fits(x) && RefersTo(x.p, x.d, c) && Summary(x.p, c).Some? && x.m > 0 && |vals| == Summary(x.p, c).value
    ensures var fn := x.p.defs[c].fns[0];
      Agree(x.forward, Run(x.ops, x.p, c, fn.body, Bind(fn.params, vals), x.m - 1),
            Run(x.ops, Inlined(x.p), c, FoldedEntry(x.p, c), Bind(fn.params, vals), x.n))
    decreases x.m, 0, 0
  {
    hide Inline, Run, Bind, Ready, Marked, WellFormed, Refs, DefRefs, Above, NextFree, Cover;
    CalleeFits(x, c);
    var fns := x.p.defs[c].fns;
    FnBelow(fns, 0);
    BodyRefs(fns, 0);
    BindBelow(fns[0].params, vals, NextFree(fns));
    var y := Pair(x.ops, x.p, c, x.m - 1, x.n, x.forward);
    var env := Bind(fns[0].params, vals);
    EntryReady(y, fns[0].body, NextFree(fns), NextFree(fns), env);
    Simulates(y, fns[0].body, NextFree(fns), NextFree(fns), env, env);
  }

  /** The arguments are bound and the folded body runs in place of the call. */
  lemma {:induction false} SimulatesFold(x: Pair, e: Expr, lim: nat, next: nat, env: CEnv, env2: CEnv)
    requires e.App? && Foldable(x.p, x.d, e.func, |e.args|) && Ready(x, e, lim, next, env, env2)
    ensures Same(x, e, next, env, env2)
    decreases x.m, 1, e, 0
  {
    var c := e.func.name;
    var params := x.p.defs[c].fns[0].params;
    FoldReady(x, e, lim, next, env, env2);
    var g := InlineAll(x.p, x.d, e.args, next);
    var sp := Spliced(params, FoldedEntry(x.p, c), |e.args|, g.next);
    hide *;
    SimulatesChain(x, e.args, lim, next, env, env2, g.next, sp);
    var a := RunOldAll(x, e.args, env);
    if a.Each? {
      FoldSlots(x, e, next, env2, a.vals);
      FoldedCall(x, c, a.vals, g.next, Extend(env2, g.next, a.vals));
    }
    FoldOld(x, e, env);
    FoldAgrees(x.forward, Fun(c, 0, [], []), x, a, RunNew(x, Chain(g.next, g.args, sp), env2),
               if a.Each? then RunNew(x, sp, Extend(env2, g.next, a.vals)) else Wrong);
    assert Same(x, e, next, env, env2) by { SameChain(x, e, next, env, env2); }
  }

  lemma SameChain(x: Pair, e: Expr, next: nat, env: CEnv, env2: CEnv)
    requires Marked(x.p) && x.d in x.p.defs && Refs(e) <= DefRefs(x.p.defs[x.d].fns)
    requires Agree(x.forward, RunOld(x, e, env), RunNew(x, Inline(x.p, x.d, e, next).e, env2))
    ensures Same(x, e, next, env, env2)
  {
  }

  lemma FoldAgrees(forward: bool, f: CVal, x: Pair, a: Results, c: Result, tail: Result)
    requires Chained(forward, a, c, tail) && forward == x.forward
    requires a.Each? ==> Agree(forward, Apply(x.ops, x.p, f, a.vals, x.m), tail)
    ensures Agree(forward, ApplyAll(x.ops, x.p, f, a, x.m), c)
  {
  }

  lemma FoldSlots(x: Pair, e: Expr, next: nat, env2: CEnv, vals: seq<CVal>)
    requires e.App? && Foldable(x.p, x.d, e.func, |e.args|) && Fits(x) &&
      RefsAll(e.args) <= DefRefs(x.p.defs[x.d].fns) && |vals| == |e.args|
    requires RefersTo(x.p, x.d, e.func.name)
    requires var g := InlineAll(x.p, x.d, e.args, next);
      ClearBetween(env2, next, CalleeRenaming(x.p.defs[e.func.name].fns[0].params, FoldedEntry(x.p, e.func.name),
        |e.args|, g.next).next)
    ensures var g := InlineAll(x.p, x.d, e.args, next); var big := Extend(env2, g.next, vals);
      && InSlots(big, g.next, vals)
      && ClearBetween(big, g.next + |vals|,
           CalleeRenaming(x.p.defs[e.func.name].fns[0].params, FoldedEntry(x.p, e.func.name), |e.args|, g.next).next)
  {
    hide Inline, InlineAll, CalleeRenaming, FoldedEntry, Extend;
    var g := InlineAll(x.p, x.d, e.args, next);
    ExtendAt(env2, g.next, vals);
  }

  lemma FoldReady(x: Pair, e: Expr, lim: nat, next: nat, env: CEnv, env2: CEnv)
    requires e.App? && Foldable(x.p, x.d, e.func, |e.args|) && Ready(x, e, lim, next, env, env2)
    ensures RefersTo(x.p, x.d, e.func.name) && Summary(x.p, e.func.name).Some? && Fits(x)
    ensures Marked(x.p) && RefsAll(e.args) <= DefRefs(x.p.defs[x.d].fns) && Refs(e) <= DefRefs(x.p.defs[x.d].fns)
    ensures |x.p.defs[e.func.name].fns| == 1 && 0 < |x.p.defs[e.func.name].fns[0].params| <= |e.args|
    ensures ReadyAll(x, e.args, lim, next, env, env2)
    ensures var g := InlineAll(x.p, x.d, e.args, next);
      var params := x.p.defs[e.func.name].fns[0].params;
      && Inline(x.p, x.d, e, next).e == Chain(g.next, g.args,
        Spliced(params, FoldedEntry(x.p, e.func.name), |e.args|, g.next))
      && ClearBetween(env2, next, CalleeRenaming(params, FoldedEntry(x.p, e.func.name), |e.args|, g.next).next)
  {
    FoldCall(x, e, next);
    hide Inline, InlineAll, CalleeRenaming, Spliced, FoldedEntry;
  }

  lemma FoldCall(x: Pair, e: Expr, next: nat)
    requires Marked(x.p) && e.App? && Foldable(x.p, x.d, e.func, |e.args|) && x.d in x.p.defs &&
      Refs(e) <= DefRefs(x.p.defs[x.d].fns)
    ensures RefersTo(x.p, x.d, e.func.name) && Summary(x.p, e.func.name).Some?
    ensures RefsAll(e.args) <= DefRefs(x.p.defs[x.d].fns) && AboveAll(e.args) <= Above(e)
    ensures var g := InlineAll(x.p, x.d, e.args, next);
      Inline(x.p, x.d, e, next) == Build(x.p.defs[e.func.name].fns[0].params, FoldedEntry(x.p, e.func.name), g.args,
        g.next)
  {
    assert e.func.name in Refs(e);
    assert Inline(x.p, x.d, e.func, next) == Folded(e.func, next);
  }

  lemma FoldOld(x: Pair, e: Expr, env: CEnv)
    requires e.App? && Foldable(x.p, x.d, e.func, |e.args|)
    ensures RunOld(x, e, env) == ApplyAll(x.ops, x.p, Fun(e.func.name, 0, [], []), RunOldAll(x, e.args, env), x.m)
  {
    assert RunOld(x, e.func, env) == RunGlobal(x.ops, x.p, e.func.name, x.m);
  }

  /** Calling the helper, against running its renamed folded body on the argument slots. */
  lemma {:induction false} FoldedCall(x: Pair, c: nat, vals: seq<CVal>, first: nat, env: CEnv)
    requires Fits(x) && RefersTo(x.p, x.d, c) && Summary(x.p, c).Some? && |vals| >= Summary(x.p, c).value
    requires InSlots(env, first, vals)
    requires var fn := x.p.defs[c].fns[0];
      ClearBetween(env, first + |vals|, CalleeRenaming(fn.params, FoldedEntry(x.p, c), |vals|, first).next)
    ensures var fn := x.p.defs[c].fns[0];
      Agree(x.forward, Apply(x.ops, x.p, Fun(c, 0, [], []), vals, x.m),
            RunNew(x, Spliced(fn.params, FoldedEntry(x.p, c), |vals|, first), env))
    decreases x.m, 0, 3
  {
    hide Inline, Run, RunNew, Inlined, Bind, Apply, Cover, Spliced, CalleeRenaming, InSlots, ClearBetween,
      FoldedEntry, WellFormed, ReachSet;
    hide RefersTo, Summary, Marked, Rename, Spent, DefRefs;
    SummaryFacts(x.p, c);
    var fn := x.p.defs[c].fns[0];
    var prefix, surplus := vals[..|fn.params|], vals[|fn.params|..];
    assert Marked(x.p) && WellFormed(x.p) && x.d in x.p.defs;
    HelperApplies(x, c, vals);
    if x.m == 0 {
      NothingSpent(x, c);
    } else {
      SimulatesCallee(x, c, prefix);
      CalleeRenamed(x, c, vals, first, env);
      SurplusCall(x, fn.params, FoldedEntry(x.p, c), vals, first, env);
      var r := Run(x.ops, x.p, c, fn.body, Bind(fn.params, prefix), x.m - 1);
      if r.Yields? {
        if surplus == [] {
          ApplyNone(x.ops, x.p, r.v, x.m - 1);
        } else {
          FoldSpends(x, c);
          SimulatesApply(x.(m := x.m - 1), r.v, surplus);
        }
      }
    }
  }

  lemma ApplyNone(ops: Prims, p: Program, f: CVal, fuel: nat)
    ensures Apply(ops, p, f, [], fuel) == Yields(f)
  {
  }

  lemma NothingSpent(x: Pair, c: nat)
    requires Fits(x) && RefersTo(x.p, x.d, c) && c !in x.p.recursive && x.m == 0
    ensures x.forward
  {
    CalleeReachesLess(x.p, x.d, c);
    SubsetSize(ReachSet(x.p, c), ReachSet(x.p, x.d));
    CoverAtLeast(x.p, x.n, |ReachSet(x.p, x.d)|);
  }

  /** The folded body under its renaming, against the folded body itself. */
  lemma CalleeRenamed(x: Pair, c: nat, vals: seq<CVal>, first: nat, env: CEnv)
    requires Fits(x) && RefersTo(x.p, x.d, c) && Summary(x.p, c).Some? && |vals| >= Summary(x.p, c).value &&
      InSlots(env, first, vals)
    requires var fn := x.p.defs[c].fns[0];
      ClearBetween(env, first + |vals|, CalleeRenaming(fn.params, FoldedEntry(x.p, c), |vals|, first).next)
    ensures var fn := x.p.defs[c].fns[0];
      RunNew(x, Rename(FoldedEntry(x.p, c), CalleeRenaming(fn.params, FoldedEntry(x.p, c), |vals|, first).subst), env)
        == Run(x.ops, Inlined(x.p), c, FoldedEntry(x.p, c), Bind(fn.params, vals[..|fn.params|]), x.n)
  {
    var fn := x.p.defs[c].fns[0];
    EntryMatches(fn.params, FoldedEntry(x.p, c), vals, first, env);
    EntryClosures(x.p, x.d, c);
    hide CalleeRenaming, FoldedEntry, Inlined, Match, Injective, Mentions, Fits;
    var m := CalleeRenaming(fn.params, FoldedEntry(x.p, c), |vals|, first).subst;
    RenameSame(x.ops, Inlined(x.p), c, x.d, FoldedEntry(x.p, c), m, Bind(fn.params, vals[..|fn.params|]), env, x.n);
  }

  lemma FoldSpends(x: Pair, c: nat)
    requires Fits(x) && RefersTo(x.p, x.d, c) && c !in x.p.recursive && x.m > 0
    ensures Spent(x.(m := x.m - 1))
  {
    CalleeReachesLess(x.p, x.d, c);
    SubsetSize(ReachSet(x.p, c), ReachSet(x.p, x.d));
  }

  lemma HelperApplies(x: Pair, c: nat, vals: seq<CVal>)
    requires c in x.p.defs && Summary(x.p, c).Some? && |vals| >= Summary(x.p, c).value
    ensures var fn := x.p.defs[c].fns[0];
      Apply(x.ops, x.p, Fun(c, 0, [], []), vals, x.m) ==
        if x.m == 0 then Timeout
        else
          var r := Run(x.ops, x.p, c, fn.body, Bind(fn.params, vals[..|fn.params|]), x.m - 1);
          if r.Yields? then Apply(x.ops, x.p, r.v, vals[|fn.params|..], x.m - 1) else r
  {
    hide *;
    SummaryFacts(x.p, c);
    DirectCall(x.ops, x.p, c, vals, x.m);
  }

  lemma SummaryFacts(p: Program, c: nat)
    requires Summary(p, c).Some?
    ensures c in p.defs && c !in p.recursive && |p.defs[c].fns| == 1 && p.defs[c].fns[0].captures == []
    ensures p.defs[c].fns[0].params != [] && Summary(p, c).value == |p.defs[c].fns[0].params|
  {
  }

  lemma SurplusCall(x: Pair, params: seq<nat>, body: Expr, vals: seq<CVal>, first: nat, env: CEnv)
    requires |params| <= |vals| && Marked(x.p)
    requires InSlots(env, first, vals)
    ensures var r := RunNew(x, Rename(body, CalleeRenaming(params, body, |vals|, first).subst), env);
      RunNew(x, Spliced(params, body, |vals|, first), env) ==
        if |params| < |vals| && r.Yields? then Apply(x.ops, Inlined(x.p), r.v, vals[|params|..], x.n) else r
  {
    if |params| < |vals| {
      var inner := Rename(body, CalleeRenaming(params, body, |vals|, first).subst);
      var locals := Locals(Slots(first + |params|, |vals| - |params|));
      LocalsRun(x, Slots(first + |params|, |vals| - |params|), vals[|params|..], env);
      var r := RunNew(x, inner, env);
      assert RunNew(x, App(inner, locals), env) ==
          if r.Yields? then ApplyAll(x.ops, Inlined(x.p), r.v, RunNewAll(x, locals, env), x.n) else r;
    }
  }

  lemma {:induction false} LocalsRun(x: Pair, ids: seq<nat>, vals: seq<CVal>, env: CEnv)
    requires Marked(x.p) && |ids| == |vals| && forall i :: 0 <= i < |ids| ==> ids[i] in env && env[ids[i]] == vals[i]
    ensures RunNewAll(x, Locals(ids), env) == Each(vals)
  {
    if ids == [] {
      assert Locals(ids) == [];
    } else {
      LocalsRun(x, ids[1..], vals[1..], env);
      assert Locals(ids)[1..] == Locals(ids[1..]) && vals == [vals[0]] + vals[1..];
      assert Locals(ids)[0] == Local(ids[0]) && RunNew(x, Local(ids[0]), env) == Yields(vals[0]);
    }
  }

  // ----- main results -----

  /** Folding every helper preserves each call's value or first trap. Where the original
      ends within a budget, the folded program ends within the same budget; where the
      folded program ends, so does the original, within that many budgets of one call
      per definition. */
  lemma FoldingPreservesCalls(ops: Prims, p: Program, f: CVal, args: seq<CVal>, fuel: nat)
    requires Marked(p) && WellFormed(p)
    ensures var before := Apply(ops, p, f, args, fuel);
      before != Timeout ==> Apply(ops, Inlined(p), f, args, fuel) == before
    ensures var after := Apply(ops, Inlined(p), f, args, fuel);
      after != Timeout ==> Apply(ops, p, f, args, Cover(p, fuel, 0)) == after
  {
    hide Apply, Inlined;
    SimulatesApply(Pair(ops, p, 0, fuel, fuel, true), f, args);
    SimulatesApply(Pair(ops, p, 0, Cover(p, fuel, 0), fuel, false), f, args);
  }

  /** The same of any term of a definition, in any environment that leaves the slots
      allocated while folding it free. */
  lemma FoldingPreservesTerms(ops: Prims, p: Program, d: nat, e: Expr, next: nat, env: CEnv, fuel: nat)
    requires Marked(p) && WellFormed(p) && d in p.defs && Refs(e) <= DefRefs(p.defs[d].fns)
    requires Above(e) <= next && forall y :: y in env ==> y < next
    ensures var before := Run(ops, p, d, e, env, fuel);
      before != Timeout ==> Run(ops, Inlined(p), d, Inline(p, d, e, next).e, env, fuel) == before
    ensures var after := Run(ops, Inlined(p), d, Inline(p, d, e, next).e, env, fuel);
      after != Timeout ==> Run(ops, p, d, e, env, Cover(p, fuel, |ReachSet(p, d)|)) == after
  {
    hide Run, Inlined, Inline;
    var x := Pair(ops, p, d, fuel, fuel, true);
    assert Ready(x, e, next, next, env, env);
    Simulates(x, e, next, next, env, env);
    var y := Pair(ops, p, d, Cover(p, fuel, |ReachSet(p, d)|), fuel, false);
    assert Ready(y, e, next, next, env, env);
    Simulates(y, e, next, next, env, env);
  }
}
