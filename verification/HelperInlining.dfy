/** Folding small, non-recursive helpers of the same file into their callers. */
module HelperInlining {
  import opened Machine
  import opened Core
  import opened CoreLoop
  import opened Calls

  // ----- which definitions may be folded -----

  function Refs(e: Expr): set<nat>
    decreases e, 0
  {
    match e
    case Global(name) => {name}
    case Let(_, value, body) => Refs(value) + Refs(body)
    case If(cond, thn, els) => Refs(cond) + Refs(thn) + Refs(els)
    case Prim(_, args) => RefsAll(args)
    case Recur(args) => RefsAll(args)
    case App(func, args) => Refs(func) + RefsAll(args)
    case MakeData(_, args) => RefsAll(args)
    case Foreign(_, args) => RefsAll(args)
    case DataTag(base) => Refs(base)
    case DataField(base, _) => Refs(base)
    case Dup(_, body) => Refs(body)
    case Drop(_, body) => Refs(body)
    case FreeReuse(_, body) => Refs(body)
    case Reset(value, _, body) => Refs(value) + Refs(body)
    case Join(_, body) => Refs(body)
    case _ => {}
  }

  function RefsAll(args: seq<Expr>): set<nat>
    decreases args, 1
  {
    if args == [] then {} else Refs(args[0]) + RefsAll(args[1..])
  }

  function DefRefs(fns: seq<Fn>): set<nat> {
    if fns == [] then {} else Refs(fns[0].body) + DefRefs(fns[1..])
  }

  /** A reference from one definition to another of the same file. */
  predicate RefersTo(p: Program, a: nat, b: nat) {
    a in p.defs && b in p.defs && p.defs[a].file == p.defs[b].file && b in DefRefs(p.defs[a].fns)
  }

  ghost predicate ReachesIn(p: Program, a: nat, b: nat, steps: nat)
    decreases steps
  {
    if steps == 0 then RefersTo(p, a, b) else exists c :: RefersTo(p, a, c) && ReachesIn(p, c, b, steps - 1)
  }

  ghost predicate Reaches(p: Program, a: nat, b: nat) {
    exists steps: nat :: ReachesIn(p, a, b, steps)
  }

  ghost function ReachSet(p: Program, a: nat): set<nat> {
    set b | b in p.defs && Reaches(p, a, b)
  }

  /** Every definition on a cycle of same-file references is marked recursive. */
  ghost predicate Marked(p: Program) {
    forall a :: a in p.defs && Reaches(p, a, a) ==> a in p.recursive
  }

  lemma {:induction false} ReachesThen(p: Program, a: nat, b: nat, c: nat, steps: nat)
    requires ReachesIn(p, a, b, steps) && Reaches(p, b, c)
    ensures Reaches(p, a, c)
    decreases steps
  {
    if steps == 0 {
      var k: nat :| ReachesIn(p, b, c, k);
      assert ReachesIn(p, a, c, k + 1);
    } else {
      var m :| RefersTo(p, a, m) && ReachesIn(p, m, b, steps - 1);
      ReachesThen(p, m, b, c, steps - 1);
      var k: nat :| ReachesIn(p, m, c, k);
      assert ReachesIn(p, a, c, k + 1);
    }
  }

  /** What a callee that is not recursive reaches is strictly less than what its caller
      reaches, so folding bodies into bodies ends. */
  lemma CalleeReachesLess(p: Program, a: nat, b: nat)
    requires Marked(p) && RefersTo(p, a, b) && b !in p.recursive
    ensures ReachSet(p, b) < ReachSet(p, a)
  {
    assert ReachesIn(p, a, b, 0);
    forall c | c in ReachSet(p, b) ensures c in ReachSet(p, a) {
      ReachesThen(p, a, b, c, 0);
    }
    assert b in ReachSet(p, a) && b !in ReachSet(p, b);
  }

  const INLINE_NODE_BUDGET: nat := 64

  /** The parameter count of a foldable helper. */
  function Summary(p: Program, name: nat): Option<nat> {
    if name !in p.defs || name in p.recursive then None
    else
      var def := p.defs[name];
      if |def.fns| != 1 then None
      else if def.fns[0].captures != [] || def.fns[0].params == [] then None
      else if def.evidence > 0 then None
      else if NodeCount(def.fns[0].body) > INLINE_NODE_BUDGET then None
      else Some(|def.fns[0].params|)
  }

  /** A call that is folded: a direct, saturated or over-saturated call of a foldable
      helper of the caller's file. */
  predicate Foldable(p: Program, d: nat, func: Expr, count: nat) {
    && func.Global? && d in p.defs && func.name in p.defs && p.defs[func.name].file == p.defs[d].file
    && Summary(p, func.name).Some? && count >= Summary(p, func.name).value
  }

  // ----- fresh locals -----

  /** One above every local of a list. */
  function AboveIds(ids: seq<nat>): (m: nat)
    ensures forall i :: i in ids ==> i < m
  {
    if ids == [] then 0
    else
      assert ids == [ids[0]] + ids[1..];
      Max(ids[0] + 1, AboveIds(ids[1..]))
  }

  /** One above every local a term mentions. */
  function Above(e: Expr): nat
    decreases e, 0
  {
    match e
    case Local(x) => x + 1
    case Let(local, value, body) => Max(local + 1, Max(Above(value), Above(body)))
    case If(cond, thn, els) => Max(Above(cond), Max(Above(thn), Above(els)))
    case Prim(_, args) => AboveAll(args)
    case Recur(args) => AboveAll(args)
    case App(func, args) => Max(Above(func), AboveAll(args))
    case MakeData(_, args) => AboveAll(args)
    case Foreign(_, args) => AboveAll(args)
    case DataTag(base) => Above(base)
    case DataField(base, _) => Above(base)
    case MakeClosure(_, captures) => AboveIds(captures)
    case Dup(x, body) => Max(x + 1, Above(body))
    case Drop(x, body) => Max(x + 1, Above(body))
    case FreeReuse(x, body) => Max(x + 1, Above(body))
    case Reset(value, x, body) => Max(x + 1, Max(Above(value), Above(body)))
    case Join(params, body) => Max(AboveIds(params), Above(body))
    case _ => 0
  }

  function AboveAll(args: seq<Expr>): nat
    decreases args, 1
  {
    if args == [] then 0 else Max(Above(args[0]), AboveAll(args[1..]))
  }

  function NextFree(fns: seq<Fn>): nat {
    if fns == [] then 0
    else Max(Max(AboveIds(fns[0].params), AboveIds(fns[0].captures)), Max(Above(fns[0].body), NextFree(fns[1..])))
  }

  datatype Renaming = Renaming(subst: map<nat, nat>, next: nat)

  function RemapLocal(x: nat, r: Renaming): (r2: Renaming)
    ensures r.next <= r2.next
  {
    if x in r.subst then r else Renaming(r.subst[x := r.next], r.next + 1)
  }

  function RemapIds(ids: seq<nat>, r: Renaming): (r2: Renaming)
    ensures r.next <= r2.next
  {
    if ids == [] then r else RemapIds(ids[1..], RemapLocal(ids[0], r))
  }

  /** The renaming after a term: a fresh slot for each local seen for the first time, a
      bound value before its binder. */
  function Remap(e: Expr, r: Renaming): (r2: Renaming)
    ensures r.next <= r2.next
    decreases e, 0
  {
    match e
    case Local(x) => RemapLocal(x, r)
    case Let(local, value, body) => Remap(body, RemapLocal(local, Remap(value, r)))
    case If(cond, thn, els) => Remap(els, Remap(thn, Remap(cond, r)))
    case Prim(_, args) => RemapAll(args, r)
    case Recur(args) => RemapAll(args, r)
    case App(func, args) => RemapAll(args, Remap(func, r))
    case MakeData(_, args) => RemapAll(args, r)
    case Foreign(_, args) => RemapAll(args, r)
    case DataTag(base) => Remap(base, r)
    case DataField(base, _) => Remap(base, r)
    case MakeClosure(_, captures) => RemapIds(captures, r)
    case Dup(x, body) => Remap(body, RemapLocal(x, r))
    case Drop(x, body) => Remap(body, RemapLocal(x, r))
    case FreeReuse(x, body) => Remap(body, RemapLocal(x, r))
    case Reset(value, x, body) => Remap(body, RemapLocal(x, Remap(value, r)))
    case Join(params, body) => Remap(body, RemapIds(params, r))
    case _ => r
  }

  function RemapAll(args: seq<Expr>, r: Renaming): (r2: Renaming)
    ensures r.next <= r2.next
    decreases args, 1
  {
    if args == [] then r else RemapAll(args[1..], Remap(args[0], r))
  }

  function At(m: map<nat, nat>, x: nat): nat {
    if x in m then m[x] else x
  }

  function RenameIds(ids: seq<nat>, m: map<nat, nat>): (r: seq<nat>)
    ensures |r| == |ids|
    ensures forall i :: 0 <= i < |ids| ==> r[i] == At(m, ids[i])
  {
    seq(|ids|, i requires 0 <= i < |ids| => At(m, ids[i]))
  }

  /** A term with every local replaced. */
  function Rename(e: Expr, m: map<nat, nat>): Expr
    decreases e, 0
  {
    match e
    case Local(x) => Local(At(m, x))
    case Let(local, value, body) => Let(At(m, local), Rename(value, m), Rename(body, m))
    case If(cond, thn, els) => If(Rename(cond, m), Rename(thn, m), Rename(els, m))
    case Prim(op, args) => Prim(op, RenameAll(args, m))
    case Recur(args) => Recur(RenameAll(args, m))
    case App(func, args) => App(Rename(func, m), RenameAll(args, m))
    case MakeData(tag, args) => MakeData(tag, RenameAll(args, m))
    case Foreign(symbol, args) => Foreign(symbol, RenameAll(args, m))
    case DataTag(base) => DataTag(Rename(base, m))
    case DataField(base, index) => DataField(Rename(base, m), index)
    case MakeClosure(fn, captures) => MakeClosure(fn, RenameIds(captures, m))
    case Dup(x, body) => Dup(At(m, x), Rename(body, m))
    case Drop(x, body) => Drop(At(m, x), Rename(body, m))
    case FreeReuse(x, body) => FreeReuse(At(m, x), Rename(body, m))
    case Reset(value, x, body) => Reset(Rename(value, m), At(m, x), Rename(body, m))
    case Join(params, body) => Join(RenameIds(params, m), Rename(body, m))
    case _ => e
  }

  function RenameAll(args: seq<Expr>, m: map<nat, nat>): (r: seq<Expr>)
    ensures |r| == |args|
    decreases args, 1
  {
    if args == [] then [] else [Rename(args[0], m)] + RenameAll(args[1..], m)
  }

  // ----- the transformation -----

  datatype Folded = Folded(e: Expr, next: nat)

  datatype FoldedAll = FoldedAll(args: seq<Expr>, next: nat)

  function Slots(first: nat, count: nat): (s: seq<nat>)
    ensures |s| == count && forall i :: 0 <= i < count ==> s[i] == first + i
  {
    seq(count, i => first + i)
  }

  function Locals(ids: seq<nat>): (r: seq<Expr>)
    ensures |r| == |ids| && forall i :: 0 <= i < |ids| ==> r[i] == Local(ids[i])
  {
    seq(|ids|, i requires 0 <= i < |ids| => Local(ids[i]))
  }

  /** Arguments bound in source order to consecutive slots. */
  function Chain(first: nat, args: seq<Expr>, body: Expr): Expr
    decreases |args|
  {
    if args == [] then body else Let(first, args[0], Chain(first + 1, args[1..], body))
  }

  /** The renaming a fold uses: parameters to the slots of their arguments, every other
      local of the callee to a slot above all arguments. */
  function CalleeRenaming(params: seq<nat>, body: Expr, count: nat, next: nat): (r: Renaming)
    ensures next + count <= r.next
  {
    Remap(body, Renaming(Bind(params, Slots(next, |params|)), next + count))
  }

  /** The renamed body, applied to the surplus arguments if there are any. */
  function Spliced(params: seq<nat>, body: Expr, count: nat, next: nat): Expr
    requires |params| <= count
  {
    var inner := Rename(body, CalleeRenaming(params, body, count, next).subst);
    if |params| < count then App(inner, Locals(Slots(next + |params|, count - |params|))) else inner
  }

  function Build(params: seq<nat>, body: Expr, args: seq<Expr>, next: nat): (r: Folded)
    requires |params| <= |args|
    ensures next + |args| <= r.next
  {
    Folded(Chain(next, args, Spliced(params, body, |args|, next)), CalleeRenaming(params, body, |args|, next).next)
  }

  /** A term with every foldable call folded, children first. */
  function Inline(p: Program, d: nat, e: Expr, next: nat): (r: Folded)
    requires Marked(p) && d in p.defs && Refs(e) <= DefRefs(p.defs[d].fns)
    ensures next <= r.next
    decreases ReachSet(p, d), e, 0
  {
    match e
    case Let(local, value, body) =>
      var v := Inline(p, d, value, next);
      var b := Inline(p, d, body, v.next);
      Folded(Let(local, v.e, b.e), b.next)
    case If(cond, thn, els) =>
      var c := Inline(p, d, cond, next);
      var t := Inline(p, d, thn, c.next);
      var s := Inline(p, d, els, t.next);
      Folded(If(c.e, t.e, s.e), s.next)
    case Prim(op, args) => var r := InlineAll(p, d, args, next); Folded(Prim(op, r.args), r.next)
    case Recur(args) => var r := InlineAll(p, d, args, next); Folded(Recur(r.args), r.next)
    case MakeData(tag, args) => var r := InlineAll(p, d, args, next); Folded(MakeData(tag, r.args), r.next)
    case Foreign(symbol, args) => var r := InlineAll(p, d, args, next); Folded(Foreign(symbol, r.args), r.next)
    case App(func, args) =>
      var f := Inline(p, d, func, next);
      var r := InlineAll(p, d, args, f.next);
      if Foldable(p, d, func, |args|) then
        (CalleeReachesLess(p, d, func.name);
         Build(p.defs[func.name].fns[0].params, FoldedEntry(p, func.name), r.args, r.next))
      else Folded(App(f.e, r.args), r.next)
    case DataTag(base) => var b := Inline(p, d, base, next); Folded(DataTag(b.e), b.next)
    case DataField(base, index) => var b := Inline(p, d, base, next); Folded(DataField(b.e, index), b.next)
    case Dup(x, body) => var b := Inline(p, d, body, next); Folded(Dup(x, b.e), b.next)
    case Drop(x, body) => var b := Inline(p, d, body, next); Folded(Drop(x, b.e), b.next)
    case FreeReuse(x, body) => var b := Inline(p, d, body, next); Folded(FreeReuse(x, b.e), b.next)
    case Reset(value, x, body) =>
      var v := Inline(p, d, value, next);
      var b := Inline(p, d, body, v.next);
      Folded(Reset(v.e, x, b.e), b.next)
    case Join(params, body) => var b := Inline(p, d, body, next); Folded(Join(params, b.e), b.next)
    case _ => Folded(e, next)
  }

  function InlineAll(p: Program, d: nat, args: seq<Expr>, next: nat): (r: FoldedAll)
    requires Marked(p) && d in p.defs && RefsAll(args) <= DefRefs(p.defs[d].fns)
    ensures |r.args| == |args| && next <= r.next
    decreases ReachSet(p, d), args, 1
  {
    if args == [] then FoldedAll([], next)
    else
      var a := Inline(p, d, args[0], next);
      var r := InlineAll(p, d, args[1..], a.next);
      FoldedAll([a.e] + r.args, r.next)
  }

  /** The callee's own folded entry body: folding is transitive. */
  function FoldedEntry(p: Program, c: nat): Expr
    requires Marked(p) && c in p.defs && |p.defs[c].fns| == 1
    decreases ReachSet(p, c), p.defs[c].fns[0].body, 1
  {
    Inline(p, c, p.defs[c].fns[0].body, NextFree(p.defs[c].fns)).e
  }

  /** All functions of a definition, one after the other. */
  function InlineFns(p: Program, d: nat, i: nat, next: nat): (r: seq<Fn>)
    requires Marked(p) && d in p.defs && i <= |p.defs[d].fns|
    ensures |r| == |p.defs[d].fns| - i
    decreases |p.defs[d].fns| - i
  {
    var fns := p.defs[d].fns;
    if i == |fns| then []
    else
      BodyRefs(fns, i);
      var b := Inline(p, d, fns[i].body, next);
      [fns[i].(body := b.e)] + InlineFns(p, d, i + 1, b.next)
  }

  lemma {:induction false} BodyRefs(fns: seq<Fn>, i: nat)
    requires i < |fns|
    ensures Refs(fns[i].body) <= DefRefs(fns)
    decreases i
  {
    if i > 0 { BodyRefs(fns[1..], i - 1); }
  }

  function InlinedDef(p: Program, d: nat): Def
    requires Marked(p) && d in p.defs
  {
    p.defs[d].(fns := InlineFns(p, d, 0, NextFree(p.defs[d].fns)))
  }

  /** The program the back end sees: every definition's helper calls folded. */
  function Inlined(p: Program): Program
    requires Marked(p)
  {
    p.(defs := map d | d in p.defs :: InlinedDef(p, d))
  }
}
