/** The inliner as the compiler runs it: trees are rebuilt while the next free slot, the
    renaming and the "anything folded" flag are updated in place. */
module HelperInliner {
  import opened Core
  import opened CoreLoop
  import opened Calls
  import opened HelperInlining
  import opened HelperInliningRuns

  /** A longer renaming changes nothing about locals already renamed. */
  lemma {:induction false} RenameStable(e: Expr, m: map<nat, nat>, m2: map<nat, nat>)
    requires Mentions(e) <= m.Keys && Extended(m, m2)
    ensures Rename(e, m2) == Rename(e, m)
    decreases e, 0
  {
    match e
    case Let(_, value, body) => RenameStable(value, m, m2); RenameStable(body, m, m2);
    case If(cond, thn, els) => RenameStable(cond, m, m2); RenameStable(thn, m, m2); RenameStable(els, m, m2);
    case Prim(_, args) => RenameAllStable(args, m, m2);
    case Recur(args) => RenameAllStable(args, m, m2);
    case App(func, args) => RenameStable(func, m, m2); RenameAllStable(args, m, m2);
    case MakeData(_, args) => RenameAllStable(args, m, m2);
    case Foreign(_, args) => RenameAllStable(args, m, m2);
    case DataTag(base) => RenameStable(base, m, m2);
    case DataField(base, _) => RenameStable(base, m, m2);
    case MakeClosure(_, captures) => assert RenameIds(captures, m2) == RenameIds(captures, m);
    case Dup(_, body) => RenameStable(body, m, m2);
    case Drop(_, body) => RenameStable(body, m, m2);
    case FreeReuse(_, body) => RenameStable(body, m, m2);
    case Reset(value, _, body) => RenameStable(value, m, m2); RenameStable(body, m, m2);
    case Join(params, body) => assert RenameIds(params, m2) == RenameIds(params, m); RenameStable(body, m, m2);
    case _ =>
  }

  lemma {:induction false} RenameAllStable(args: seq<Expr>, m: map<nat, nat>, m2: map<nat, nat>)
    requires MentionsAll(args) <= m.Keys && Extended(m, m2)
    ensures RenameAll(args, m2) == RenameAll(args, m)
    decreases args, 1
  {
    if args != [] {
      RenameStable(args[0], m, m2);
      RenameAllStable(args[1..], m, m2);
    }
  }

  class Remapper {
    var subst: map<nat, nat>
    var next: nat

    ghost function Now(): Renaming
      reads this
    {
      Renaming(subst, next)
    }

    constructor (subst: map<nat, nat>, next: nat)
      ensures Now() == Renaming(subst, next)
    {
      this.subst, this.next := subst, next;
    }

    method MapLocal(x: nat) returns (y: nat)
      modifies this
      ensures Now() == RemapLocal(x, old(Now())) && x in subst && y == subst[x]
      ensures Covers(old(Now()), Now(), {x})
    {
      LocalCovers(x, Now());
      if x !in subst {
        subst := subst[x := next];
        next := next + 1;
      }
      y := subst[x];
    }

    method MapIds(ids: seq<nat>) returns (r: seq<nat>)
      modifies this
      ensures Now() == RemapIds(ids, old(Now())) && r == RenameIds(ids, subst)
      ensures Covers(old(Now()), Now(), ParamSet(ids))
      decreases |ids|
    {
      IdsCover(ids, Now());
      if ids == [] {
        return [];
      }
      var first := MapLocal(ids[0]);
      ghost var r1 := Now();
      var rest := MapIds(ids[1..]);
      assert Extended(r1.subst, subst);
      r := [first] + rest;
    }

    method MapExpr(e: Expr) returns (r: Expr)
      modifies this
      ensures Now() == Remap(e, old(Now())) && r == Rename(e, subst)
      ensures Covers(old(Now()), Now(), Mentions(e))
      decreases e, 1
    {
      RemapCovers(e, Now());
      hide Covers, GrowsTo, Extended, Mentions, ParamSet;
      match e
      case Local(x) => var y := MapLocal(x); r := Local(y);
      case Let(local, value, body) =>
        var v := MapExpr(value);
        ghost var r1 := Now();
        var x := MapLocal(local);
        ghost var r2 := Now();
        var b := MapExpr(body);
        CoversStable(value, r1, r2, Now(), {local}, Mentions(body), old(Now()));
        LocalStable(local, r2, Now(), Mentions(body));
        r := Let(x, v, b);
      case If(cond, thn, els) =>
        var c := MapExpr(cond);
        ghost var r1 := Now();
        var t := MapExpr(thn);
        ghost var r2 := Now();
        var s := MapExpr(els);
        CoversStable(cond, r1, r2, Now(), Mentions(thn), Mentions(els), old(Now()));
        CoversStable(thn, r2, r2, Now(), {}, Mentions(els), r1);
        r := If(c, t, s);
      case App(func, args) =>
        var f := MapExpr(func);
        ghost var r1 := Now();
        var a := MapAll(args);
        CoversStable(func, r1, r1, Now(), {}, MentionsAll(args), old(Now()));
        r := App(f, a);
      case Prim(op, args) => var a := MapAll(args); r := Prim(op, a);
      case Recur(args) => var a := MapAll(args); r := Recur(a);
      case MakeData(tag, args) => var a := MapAll(args); r := MakeData(tag, a);
      case Foreign(symbol, args) => var a := MapAll(args); r := Foreign(symbol, a);
      case DataTag(base) => var b := MapExpr(base); r := DataTag(b);
      case DataField(base, index) => var b := MapExpr(base); r := DataField(b, index);
      case MakeClosure(fn, captures) => var c := MapIds(captures); r := MakeClosure(fn, c);
      case Reset(_, _, _) => r := MapReset(e);
      case Join(_, _) => r := MapJoin(e);
      case Dup(_, _) => r := MapCount(e);
      case Drop(_, _) => r := MapCount(e);
      case FreeReuse(_, _) => r := MapCount(e);
      case _ => r := e;
    }

    method MapReset(e: Expr) returns (r: Expr)
      requires e.Reset?
      modifies this
      ensures Now() == Remap(e, old(Now())) && r == Rename(e, subst)
      decreases e, 0
    {
      var v := MapExpr(e.value);
      ghost var r1 := Now();
      var x := MapLocal(e.token);
      ghost var r2 := Now();
      var b := MapExpr(e.body);
      CoversStable(e.value, r1, r2, Now(), {e.token}, Mentions(e.body), old(Now()));
      LocalStable(e.token, r2, Now(), Mentions(e.body));
      r := Reset(v, x, b);
    }

    method MapJoin(e: Expr) returns (r: Expr)
      requires e.Join?
      modifies this
      ensures Now() == Remap(e, old(Now())) && r == Rename(e, subst)
      decreases e, 0
    {
      var ids := MapIds(e.params);
      ghost var r1 := Now();
      var b := MapExpr(e.body);
      assert RenameIds(e.params, subst) == RenameIds(e.params, r1.subst);
      r := Join(ids, b);
    }

    method MapCount(e: Expr) returns (r: Expr)
      requires e.Dup? || e.Drop? || e.FreeReuse?
      modifies this
      ensures Now() == Remap(e, old(Now())) && r == Rename(e, subst)
      decreases e, 0
    {
      var x := MapLocal(if e.FreeReuse? then e.token else e.local);
      ghost var r1 := Now();
      var b := MapExpr(e.body);
      LocalStable(if e.FreeReuse? then e.token else e.local, r1, Now(), Mentions(e.body));
      r := if e.Dup? then Dup(x, b) else if e.Drop? then Drop(x, b) else FreeReuse(x, b);
    }

    method MapAll(args: seq<Expr>) returns (r: seq<Expr>)
      modifies this
      ensures Now() == RemapAll(args, old(Now())) && r == RenameAll(args, subst)
      ensures Covers(old(Now()), Now(), MentionsAll(args))
      decreases args, 2
    {
      RemapAllCovers(args, Now());
      if args == [] {
        return [];
      }
      var first := MapExpr(args[0]);
      ghost var r1 := Now();
      var rest := MapAll(args[1..]);
      CoversStable(args[0], r1, r1, Now(), {}, MentionsAll(args[1..]), old(Now()));
      r := [first] + rest;
    }
  }

  lemma CoversStable(e: Expr, r1: Renaming, r2: Renaming, r3: Renaming, s: set<nat>, t: set<nat>, r0: Renaming)
    requires Covers(r0, r1, Mentions(e)) && (r1 == r2 || Covers(r1, r2, s)) && Covers(r2, r3, t)
    ensures Rename(e, r3.subst) == Rename(e, r1.subst)
  {
    RenameStable(e, r1.subst, r3.subst);
  }

  lemma LocalStable(x: nat, r: Renaming, r2: Renaming, t: set<nat>)
    requires x in r.subst && Covers(r, r2, t)
    ensures At(r2.subst, x) == r.subst[x]
  {
  }

  // ----- the flag -----

  /** Whether a term holds a foldable call. */
  predicate Folds(p: Program, d: nat, e: Expr)
    decreases e, 0
  {
    match e
    case Let(_, value, body) => Folds(p, d, value) || Folds(p, d, body)
    case If(cond, thn, els) => Folds(p, d, cond) || Folds(p, d, thn) || Folds(p, d, els)
    case Prim(_, args) => FoldsAny(p, d, args)
    case Recur(args) => FoldsAny(p, d, args)
    case App(func, args) => Folds(p, d, func) || FoldsAny(p, d, args) || Foldable(p, d, func, |args|)
    case MakeData(_, args) => FoldsAny(p, d, args)
    case Foreign(_, args) => FoldsAny(p, d, args)
    case DataTag(base) => Folds(p, d, base)
    case DataField(base, _) => Folds(p, d, base)
    case Dup(_, body) => Folds(p, d, body)
    case Drop(_, body) => Folds(p, d, body)
    case FreeReuse(_, body) => Folds(p, d, body)
    case Reset(value, _, body) => Folds(p, d, value) || Folds(p, d, body)
    case Join(_, body) => Folds(p, d, body)
    case _ => false
  }

  predicate FoldsAny(p: Program, d: nat, args: seq<Expr>)
    decreases args, 1
  {
    args != [] && (Folds(p, d, args[0]) || FoldsAny(p, d, args[1..]))
  }

  /** An unset flag means an unchanged term, so the original definition can be kept. */
  lemma {:induction false} UnchangedIsSame(p: Program, d: nat, e: Expr, next: nat)
    requires Marked(p) && d in p.defs && Refs(e) <= DefRefs(p.defs[d].fns) && !Folds(p, d, e)
    ensures Inline(p, d, e, next) == Folded(e, next)
    decreases e, 0
  {
    hide Marked;
    match e
    case Let(_, value, body) => UnchangedIsSame(p, d, value, next); UnchangedIsSame(p, d, body, next);
    case If(cond, thn, els) =>
      UnchangedIsSame(p, d, cond, next);
      UnchangedIsSame(p, d, thn, next);
      UnchangedIsSame(p, d, els, next);
    case Prim(_, args) => UnchangedAreSame(p, d, args, next);
    case Recur(args) => UnchangedAreSame(p, d, args, next);
    case App(func, args) => UnchangedIsSame(p, d, func, next); UnchangedAreSame(p, d, args, next);
    case MakeData(_, args) => UnchangedAreSame(p, d, args, next);
    case Foreign(_, args) => UnchangedAreSame(p, d, args, next);
    case DataTag(base) => UnchangedIsSame(p, d, base, next);
    case DataField(base, _) => UnchangedIsSame(p, d, base, next);
    case Dup(_, body) => UnchangedIsSame(p, d, body, next);
    case Drop(_, body) => UnchangedIsSame(p, d, body, next);
    case FreeReuse(_, body) => UnchangedIsSame(p, d, body, next);
    case Reset(value, _, body) => UnchangedIsSame(p, d, value, next); UnchangedIsSame(p, d, body, next);
    case Join(_, body) => UnchangedIsSame(p, d, body, next);
    case _ =>
  }

  lemma {:induction false} UnchangedAreSame(p: Program, d: nat, args: seq<Expr>, next: nat)
    requires Marked(p) && d in p.defs && RefsAll(args) <= DefRefs(p.defs[d].fns) && !FoldsAny(p, d, args)
    ensures InlineAll(p, d, args, next) == FoldedAll(args, next)
    decreases args, 1
  {
    if args != [] {
      UnchangedIsSame(p, d, args[0], next);
      UnchangedAreSame(p, d, args[1..], next);
      assert args == [args[0]] + args[1..];
    }
  }

  // ----- folding -----

  lemma SlotsAfter(first: nat, skip: nat, count: nat)
    requires skip <= count
    ensures Slots(first, count)[skip..] == Slots(first + skip, count - skip)
  {
  }

  class Inliner {
    const p: Program
    const d: nat
    var next: nat
    var changed: bool

    constructor (p: Program, d: nat, next: nat)
      ensures this.p == p && this.d == d && this.next == next && !changed
    {
      this.p, this.d, this.next, this.changed := p, d, next, false;
    }

    method FreshLocals(count: nat) returns (ids: seq<nat>)
      modifies this`next
      ensures ids == Slots(old(next), count) && next == old(next) + count
    {
      ids := [];
      for i := 0 to count
        invariant ids == Slots(old(next), i) && next == old(next) + i
      {
        ids := ids + [next];
        next := next + 1;
      }
    }

    /** Parameters to the slots of their arguments. */
    method ParameterSlots(params: seq<nat>, slots: seq<nat>, ghost first: nat) returns (subst: map<nat, nat>)
      requires |params| <= |slots| && slots == Slots(first, |slots|)
      ensures subst == Bind(params, Slots(first, |params|))
    {
      subst := map[];
      for i := 0 to |params|
        invariant subst == Bind(params[..i], Slots(first, i))
      {
        assert params[..i + 1][..i] == params[..i] && Slots(first, i + 1)[..i] == Slots(first, i);
        subst := subst[params[i] := slots[i]];
      }
      assert params[..|params|] == params;
    }

    /** Binds every argument, outermost first. */
    method BindArguments(slots: seq<nat>, args: seq<Expr>, body: Expr, ghost first: nat) returns (r: Expr)
      requires slots == Slots(first, |args|)
      ensures r == Chain(first, args, body)
    {
      r := body;
      var i := |args|;
      while i > 0
        invariant 0 <= i <= |args| && r == Chain(first + i, args[i..], body)
      {
        i := i - 1;
        assert args[i..][0] == args[i] && args[i..][1..] == args[i + 1..];
        r := Let(slots[i], args[i], r);
      }
    }

    method BuildInline(params: seq<nat>, body: Expr, args: seq<Expr>) returns (r: Expr)
      requires |params| <= |args|
      modifies this`next
      ensures Folded(r, next) == Build(params, body, args, old(next))
    {
      hide Bind, Remap, Rename, Chain, Covers, Mentions, Slots, Locals;
      ghost var first := next;
      var slots := FreshLocals(|args|);
      var subst := ParameterSlots(params, slots, first);
      var remapper := new Remapper(subst, next);
      r := remapper.MapExpr(body);
      next := remapper.next;
      if |params| < |args| {
        SlotsAfter(first, |params|, |args|);
        r := App(r, Locals(slots[|params|..]));
      }
      r := BindArguments(slots, args, r, first);
    }

    method InlineExpr(e: Expr) returns (r: Expr)
      requires Marked(p) && d in p.defs && Refs(e) <= DefRefs(p.defs[d].fns)
      modifies this
      ensures Folded(r, next) == Inline(p, d, e, old(next)) && changed == (old(changed) || Folds(p, d, e))
      decreases ReachSet(p, d), e, 3
    {
      hide Marked, ReachSet, Foldable, Summary;
      match e
      case Let(local, value, body) => var v := InlineExpr(value); var b := InlineExpr(body); r := Let(local, v, b);
      case If(cond, thn, els) =>
        var c := InlineExpr(cond);
        var t := InlineExpr(thn);
        var s := InlineExpr(els);
        r := If(c, t, s);
      case Prim(op, args) => var a := InlineMany(args); r := Prim(op, a);
      case Recur(args) => var a := InlineMany(args); r := Recur(a);
      case MakeData(tag, args) => var a := InlineMany(args); r := MakeData(tag, a);
      case Foreign(symbol, args) => var a := InlineMany(args); r := Foreign(symbol, a);
      case App(_, _) => r := InlineCall(e);
      case DataTag(base) => var b := InlineExpr(base); r := DataTag(b);
      case DataField(base, index) => var b := InlineExpr(base); r := DataField(b, index);
      case Dup(x, body) => var b := InlineExpr(body); r := Dup(x, b);
      case Drop(x, body) => var b := InlineExpr(body); r := Drop(x, b);
      case FreeReuse(x, body) => var b := InlineExpr(body); r := FreeReuse(x, b);
      case Reset(value, x, body) => var v := InlineExpr(value); var b := InlineExpr(body); r := Reset(v, x, b);
      case Join(params, body) => var b := InlineExpr(body); r := Join(params, b);
      case _ => r := e;
    }

    method InlineMany(args: seq<Expr>) returns (r: seq<Expr>)
      requires Marked(p) && d in p.defs && RefsAll(args) <= DefRefs(p.defs[d].fns)
      modifies this
      ensures FoldedAll(r, next) == InlineAll(p, d, args, old(next)) &&
        changed == (old(changed) || FoldsAny(p, d, args))
      decreases ReachSet(p, d), args, 4
    {
      if args == [] {
        return [];
      }
      var first := InlineExpr(args[0]);
      var rest := InlineMany(args[1..]);
      r := [first] + rest;
    }

    method InlineCall(e: Expr) returns (r: Expr)
      requires e.App? && Marked(p) && d in p.defs && Refs(e) <= DefRefs(p.defs[d].fns)
      modifies this
      ensures Folded(r, next) == Inline(p, d, e, old(next)) && changed == (old(changed) || Folds(p, d, e))
      decreases ReachSet(p, d), e, 2
    {
      var f := InlineExpr(e.func);
      var args := InlineMany(e.args);
      if Foldable(p, d, e.func, |e.args|) {
        assert e.func.name in Refs(e);
        CalleeReachesLess(p, d, e.func.name);
        var body := FoldedBody(e.func.name);
        changed := true;
        r := BuildInline(p.defs[e.func.name].fns[0].params, body, args);
      } else {
        r := App(f, args);
      }
    }

    /** The callee's own folded body, with its own slots. */
    method FoldedBody(c: nat) returns (body: Expr)
      requires Marked(p) && c in p.defs && |p.defs[c].fns| == 1
      ensures body == FoldedEntry(p, c)
      decreases ReachSet(p, c), p.defs[c].fns[0].body, 4
    {
      var inner := new Inliner(p, c, NextFree(p.defs[c].fns));
      body := inner.InlineExpr(p.defs[c].fns[0].body);
    }
  }
}
