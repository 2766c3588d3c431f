/** Which calls are folded, from the definitions alone, and which are left afterwards. */
module HelperInliningCalls {
  import opened Core
  import opened Calls
  import opened HelperInlining
  import HelperInliner

  /** A call of a definition by its name, with its number of arguments. */
  datatype Call = Call(name: nat, count: nat)

  function DirectCalls(e: Expr): set<Call>
    decreases e, 0
  {
    match e
    case Let(_, value, body) => DirectCalls(value) + DirectCalls(body)
    case If(cond, thn, els) => DirectCalls(cond) + DirectCalls(thn) + DirectCalls(els)
    case Prim(_, args) => DirectCallsAll(args)
    case Recur(args) => DirectCallsAll(args)
    case App(func, args) => Named(func, |args|) + DirectCalls(func) + DirectCallsAll(args)
    case MakeData(_, args) => DirectCallsAll(args)
    case Foreign(_, args) => DirectCallsAll(args)
    case DataTag(base) => DirectCalls(base)
    case DataField(base, _) => DirectCalls(base)
    case Dup(_, body) => DirectCalls(body)
    case Drop(_, body) => DirectCalls(body)
    case FreeReuse(_, body) => DirectCalls(body)
    case Reset(value, _, body) => DirectCalls(value) + DirectCalls(body)
    case Join(_, body) => DirectCalls(body)
    case _ => {}
  }

  function DirectCallsAll(args: seq<Expr>): set<Call>
    decreases args, 1
  {
    if args == [] then {} else DirectCalls(args[0]) + DirectCallsAll(args[1..])
  }

  /** The call that applying `func` to `count` arguments is, if `func` is a name. */
  function Named(func: Expr, count: nat): set<Call> {
    if func.Global? then {Call(func.name, count)} else {}
  }

  /** A saturated or over-applied call of a small, closed, non-recursive function of the file. */
  predicate Eligible(p: Program, d: nat, c: Call) {
    && d in p.defs && c.name in p.defs && p.defs[c.name].file == p.defs[d].file
    && c.name !in p.recursive
    && |p.defs[c.name].fns| == 1 && p.defs[c.name].evidence == 0
    && p.defs[c.name].fns[0].captures == []
    && 1 <= |p.defs[c.name].fns[0].params| <= c.count
    && NodeCount(p.defs[c.name].fns[0].body) <= 64
  }

  function Helper(p: Program, c: Call): Fn
    requires c.name in p.defs && |p.defs[c.name].fns| == 1
  {
    p.defs[c.name].fns[0]
  }

  lemma EligibleFolds(p: Program, d: nat, func: Expr, count: nat)
    ensures Foldable(p, d, func, count) <==> func.Global? && Eligible(p, d, Call(func.name, count))
  {
  }

  // ----- which terms change -----

  /** Something is folded exactly when the term holds an eligible call. */
  lemma {:induction false} FoldsExact(p: Program, d: nat, e: Expr)
    ensures HelperInliner.Folds(p, d, e) <==> exists c :: c in DirectCalls(e) && Eligible(p, d, c)
    decreases e, 0
  {
    hide Eligible, Foldable;
    match e
    case Let(_, value, body) => FoldsExact(p, d, value); FoldsExact(p, d, body);
    case If(cond, thn, els) => FoldsExact(p, d, cond); FoldsExact(p, d, thn); FoldsExact(p, d, els);
    case Prim(_, args) => FoldsAnyExact(p, d, args);
    case Recur(args) => FoldsAnyExact(p, d, args);
    case App(func, args) =>
      FoldsExact(p, d, func);
      FoldsAnyExact(p, d, args);
      EligibleFolds(p, d, func, |args|);
    case MakeData(_, args) => FoldsAnyExact(p, d, args);
    case Foreign(_, args) => FoldsAnyExact(p, d, args);
    case DataTag(base) => FoldsExact(p, d, base);
    case DataField(base, _) => FoldsExact(p, d, base);
    case Dup(_, body) => FoldsExact(p, d, body);
    case Drop(_, body) => FoldsExact(p, d, body);
    case FreeReuse(_, body) => FoldsExact(p, d, body);
    case Reset(value, _, body) => FoldsExact(p, d, value); FoldsExact(p, d, body);
    case Join(_, body) => FoldsExact(p, d, body);
    case _ =>
  }

  lemma {:induction false} FoldsAnyExact(p: Program, d: nat, args: seq<Expr>)
    ensures HelperInliner.FoldsAny(p, d, args) <==> exists c :: c in DirectCallsAll(args) && Eligible(p, d, c)
    decreases args, 1
  {
    hide Eligible;
    if args != [] {
      FoldsExact(p, d, args[0]);
      FoldsAnyExact(p, d, args[1..]);
    }
  }

  // ----- which calls are left -----

  /** The calls of `d`'s code leave `x` behind once folded. */
  ghost predicate Leaves(p: Program, d: nat, calls: set<Call>, x: Call)
    requires Marked(p)
    decreases ReachSet(p, d), 1
  {
    exists c :: c in calls && LeavesOne(p, d, c, x)
  }

  /** An ineligible call stays. An eligible one is replaced by what its helper's code leaves,
      and by the surplus application when the helper is a bare name. */
  ghost predicate LeavesOne(p: Program, d: nat, c: Call, x: Call)
    requires Marked(p)
    decreases ReachSet(p, d), 0
  {
    if !Eligible(p, d, c) then x == c
    else
      || x in Surplus(p, c)
      || (RefersTo(p, d, c.name) &&
          (CalleeReachesLess(p, d, c.name); Leaves(p, c.name, DirectCalls(Helper(p, c).body), x)))
  }

  /** The surplus arguments of an over-applied helper whose body is a bare name make a new call. */
  function Surplus(p: Program, c: Call): set<Call>
    requires c.name in p.defs && |p.defs[c.name].fns| == 1 && |Helper(p, c).params| <= c.count
  {
    if |Helper(p, c).params| < c.count then Named(Helper(p, c).body, c.count - |Helper(p, c).params|) else {}
  }

  lemma LeavesUnion(p: Program, d: nat, a: set<Call>, b: set<Call>, x: Call)
    requires Marked(p)
    ensures Leaves(p, d, a + b, x) <==> Leaves(p, d, a, x) || Leaves(p, d, b, x)
  {
    hide LeavesOne;
    if c :| c in a + b && LeavesOne(p, d, c, x) { assert c in a || c in b; }
    if c :| c in a && LeavesOne(p, d, c, x) { assert c in a + b; }
    if c :| c in b && LeavesOne(p, d, c, x) { assert c in a + b; }
  }

  lemma LeavesNone(p: Program, d: nat, x: Call)
    requires Marked(p)
    ensures !Leaves(p, d, {}, x)
  {
  }

  lemma LeavesSingle(p: Program, d: nat, c: Call, x: Call)
    requires Marked(p)
    ensures Leaves(p, d, {c}, x) <==> LeavesOne(p, d, c, x)
  {
    hide LeavesOne;
    if LeavesOne(p, d, c, x) { assert c in {c}; }
  }

  lemma RenameNamed(func: Expr, count: nat, m: map<nat, nat>)
    ensures Named(Rename(func, m), count) == Named(func, count)
  {
  }

  lemma {:induction false} RenameCalls(e: Expr, m: map<nat, nat>)
    ensures DirectCalls(Rename(e, m)) == DirectCalls(e) && (Rename(e, m).Global? <==> e.Global?)
    ensures e.Global? ==> Rename(e, m) == e
    decreases e, 0
  {
    hide At, RenameIds, Named;
    match e
    case Let(_, value, body) => RenameCalls(value, m); RenameCalls(body, m);
    case If(cond, thn, els) => RenameCalls(cond, m); RenameCalls(thn, m); RenameCalls(els, m);
    case Prim(_, args) => RenameCallsAll(args, m);
    case Recur(args) => RenameCallsAll(args, m);
    case App(func, args) =>
      RenameCalls(func, m);
      RenameCallsAll(args, m);
      RenameNamed(func, |args|, m);
    case MakeData(_, args) => RenameCallsAll(args, m);
    case Foreign(_, args) => RenameCallsAll(args, m);
    case DataTag(base) => RenameCalls(base, m);
    case DataField(base, _) => RenameCalls(base, m);
    case Dup(_, body) => RenameCalls(body, m);
    case Drop(_, body) => RenameCalls(body, m);
    case FreeReuse(_, body) => RenameCalls(body, m);
    case Reset(value, _, body) => RenameCalls(value, m); RenameCalls(body, m);
    case Join(_, body) => RenameCalls(body, m);
    case _ =>
  }

  lemma {:induction false} RenameCallsAll(args: seq<Expr>, m: map<nat, nat>)
    ensures DirectCallsAll(RenameAll(args, m)) == DirectCallsAll(args)
    decreases args, 1
  {
    if args != [] {
      RenameCalls(args[0], m);
      RenameCallsAll(args[1..], m);
    }
  }

  lemma {:induction false} ChainCalls(first: nat, args: seq<Expr>, body: Expr)
    ensures DirectCalls(Chain(first, args, body)) == DirectCallsAll(args) + DirectCalls(body)
    decreases |args|
  {
    if args != [] {
      ChainCalls(first + 1, args[1..], body);
    }
  }

  lemma {:induction false} NoLocalCalls(args: seq<Expr>)
    requires forall i :: 0 <= i < |args| ==> args[i].Local?
    ensures DirectCallsAll(args) == {}
  {
    if args != [] {
      NoLocalCalls(args[1..]);
    }
  }

  lemma SplicedCalls(params: seq<nat>, body: Expr, count: nat, next: nat)
    requires |params| <= count
    ensures DirectCalls(Spliced(params, body, count, next)) ==
      DirectCalls(body) + (if |params| < count then Named(body, count - |params|) else {})
  {
    var m := CalleeRenaming(params, body, count, next).subst;
    RenameCalls(body, m);
    hide DirectCalls, Rename, CalleeRenaming;
    if |params| < count {
      var rest := Locals(Slots(next + |params|, count - |params|));
      NoLocalCalls(rest);
      ApplyCalls(Rename(body, m), rest);
    }
  }

  lemma ApplyCalls(func: Expr, args: seq<Expr>)
    ensures DirectCalls(App(func, args)) == Named(func, |args|) + DirectCalls(func) + DirectCallsAll(args)
  {
  }

  /** Only a name folds to a name. */
  lemma NameStays(p: Program, d: nat, e: Expr, next: nat)
    requires Marked(p) && d in p.defs && Refs(e) <= DefRefs(p.defs[d].fns)
    ensures Inline(p, d, e, next).e.Global? <==> e.Global?
    ensures e.Global? ==> Inline(p, d, e, next).e == e && DirectCalls(e) == {}
  {
    hide Marked, ReachSet, RefersTo;
    if e.App? && Foldable(p, d, e.func, |e.args|) {
      assert Inline(p, d, e, next).e.Let?;
    }
  }

  /** The calls in a folded term are exactly the ones its own calls leave. */
  lemma {:induction false} CallsLeft(p: Program, d: nat, e: Expr, next: nat, x: Call)
    requires Marked(p) && d in p.defs && Refs(e) <= DefRefs(p.defs[d].fns)
    ensures x in DirectCalls(Inline(p, d, e, next).e) <==> Leaves(p, d, DirectCalls(e), x)
    decreases ReachSet(p, d), e, 3
  {
    hide Marked, ReachSet, Foldable, Eligible, Leaves;
    match e
    case Let(_, value, body) =>
      CallsLeft(p, d, value, next, x);
      CallsLeft(p, d, body, Inline(p, d, value, next).next, x);
      LeavesUnion(p, d, DirectCalls(value), DirectCalls(body), x);
    case If(cond, thn, els) =>
      var n1 := Inline(p, d, cond, next).next;
      CallsLeft(p, d, cond, next, x);
      CallsLeft(p, d, thn, n1, x);
      CallsLeft(p, d, els, Inline(p, d, thn, n1).next, x);
      LeavesUnion(p, d, DirectCalls(cond), DirectCalls(thn), x);
      LeavesUnion(p, d, DirectCalls(cond) + DirectCalls(thn), DirectCalls(els), x);
    case Prim(_, args) => CallsLeftAll(p, d, args, next, x);
    case Recur(args) => CallsLeftAll(p, d, args, next, x);
    case App(_, _) => CallsLeftApp(p, d, e, next, x);
    case MakeData(_, args) => CallsLeftAll(p, d, args, next, x);
    case Foreign(_, args) => CallsLeftAll(p, d, args, next, x);
    case DataTag(base) => CallsLeft(p, d, base, next, x);
    case DataField(base, _) => CallsLeft(p, d, base, next, x);
    case Dup(_, body) => CallsLeft(p, d, body, next, x);
    case Drop(_, body) => CallsLeft(p, d, body, next, x);
    case FreeReuse(_, body) => CallsLeft(p, d, body, next, x);
    case Reset(value, _, body) =>
      CallsLeft(p, d, value, next, x);
      CallsLeft(p, d, body, Inline(p, d, value, next).next, x);
      LeavesUnion(p, d, DirectCalls(value), DirectCalls(body), x);
    case Join(_, body) => CallsLeft(p, d, body, next, x);
    case _ => LeavesNone(p, d, x);
  }

  lemma {:induction false} CallsLeftAll(p: Program, d: nat, args: seq<Expr>, next: nat, x: Call)
    requires Marked(p) && d in p.defs && RefsAll(args) <= DefRefs(p.defs[d].fns)
    ensures x in DirectCallsAll(InlineAll(p, d, args, next).args) <==> Leaves(p, d, DirectCallsAll(args), x)
    decreases ReachSet(p, d), args, 4
  {
    hide Marked, ReachSet, Leaves;
    if args == [] {
      LeavesNone(p, d, x);
    } else {
      CallsLeft(p, d, args[0], next, x);
      CallsLeftAll(p, d, args[1..], Inline(p, d, args[0], next).next, x);
      LeavesUnion(p, d, DirectCalls(args[0]), DirectCallsAll(args[1..]), x);
    }
  }

  lemma {:induction false} CallsLeftApp(p: Program, d: nat, e: Expr, next: nat, x: Call)
    requires e.App? && Marked(p) && d in p.defs && Refs(e) <= DefRefs(p.defs[d].fns)
    ensures x in DirectCalls(Inline(p, d, e, next).e) <==> Leaves(p, d, DirectCalls(e), x)
    decreases ReachSet(p, d), e, 2
  {
    hide Marked, ReachSet, Leaves, Eligible, Foldable;
    var f := Inline(p, d, e.func, next);
    var r := InlineAll(p, d, e.args, f.next);
    CallsLeft(p, d, e.func, next, x);
    CallsLeftAll(p, d, e.args, f.next, x);
    NameStays(p, d, e.func, next);
    EligibleFolds(p, d, e.func, |e.args|);
    LeavesUnion(p, d, Named(e.func, |e.args|), DirectCalls(e.func), x);
    LeavesUnion(p, d, Named(e.func, |e.args|) + DirectCalls(e.func), DirectCallsAll(e.args), x);
    if e.func.Global? {
      var c := Call(e.func.name, |e.args|);
      LeavesSingle(p, d, c, x);
      if Eligible(p, d, c) {
        CallsLeftHelper(p, d, c, e.func, r.args, r.next, x);
      } else {
        LeavesSelf(p, d, c, x);
      }
    } else {
      LeavesNone(p, d, x);
    }
  }

  lemma LeavesSelf(p: Program, d: nat, c: Call, x: Call)
    requires Marked(p) && !Eligible(p, d, c)
    ensures LeavesOne(p, d, c, x) <==> x == c
  {
  }

  /** Splicing a helper leaves what the helper's own code leaves, and the surplus call. */
  lemma {:induction false} CallsLeftHelper(p: Program, d: nat, c: Call, func: Expr, args: seq<Expr>, next: nat, x: Call)
    requires Marked(p) && Eligible(p, d, c) && func == Global(c.name) && |args| == c.count
    requires c.name in DefRefs(p.defs[d].fns)
    ensures x in DirectCalls(Build(Helper(p, c).params, FoldedEntry(p, c.name), args, next).e) <==>
      x in DirectCallsAll(args) || LeavesOne(p, d, c, x)
    decreases ReachSet(p, d), func, 1
  {
    var fn := Helper(p, c);
    assert RefersTo(p, d, c.name);
    CalleeReachesLess(p, d, c.name);
    BodyRefs(p.defs[c.name].fns, 0);
    CallsLeft(p, c.name, fn.body, NextFree(p.defs[c.name].fns), x);
    NameStays(p, c.name, fn.body, NextFree(p.defs[c.name].fns));
    hide Marked, ReachSet, Inline, Leaves, Foldable, DirectCalls;
    var folded := FoldedEntry(p, c.name);
    ChainCalls(next, args, Spliced(fn.params, folded, |args|, next));
    SplicedCalls(fn.params, folded, |args|, next);
  }

  /** A call by name stays a call exactly when it is not eligible; otherwise its arguments are bound in order. */
  lemma CallStays(p: Program, d: nat, name: nat, args: seq<Expr>, next: nat)
    requires Marked(p) && d in p.defs && Refs(App(Global(name), args)) <= DefRefs(p.defs[d].fns)
    ensures var r, folded := Inline(p, d, App(Global(name), args), next).e, InlineAll(p, d, args, next).args;
      if Eligible(p, d, Call(name, |args|)) then r.Let? && r.value == folded[0] else r == App(Global(name), folded)
  {
    hide Marked, ReachSet, Eligible, Foldable, RefersTo;
    EligibleFolds(p, d, Global(name), |args|);
    var c := Call(name, |args|);
    if Eligible(p, d, c) { HasArguments(p, d, c); }
  }

  lemma HasArguments(p: Program, d: nat, c: Call)
    requires Eligible(p, d, c)
    ensures c.count >= 1 && 1 <= |Helper(p, c).params| <= c.count
  {
  }

  /** The same of every function of every definition of the folded program. */
  lemma ProgramCallsLeft(p: Program, d: nat, i: nat, x: Call)
    requires Marked(p) && d in p.defs && i < |p.defs[d].fns|
    ensures |Inlined(p).defs[d].fns| == |p.defs[d].fns|
    ensures x in DirectCalls(Inlined(p).defs[d].fns[i].body) <==> Leaves(p, d, DirectCalls(p.defs[d].fns[i].body), x)
  {
    FnsCallsLeft(p, d, 0, NextFree(p.defs[d].fns), i, x);
    hide Marked, Leaves, InlineFns;
  }

  lemma {:induction false} FnsCallsLeft(p: Program, d: nat, from: nat, next: nat, i: nat, x: Call)
    requires Marked(p) && d in p.defs && from <= i < |p.defs[d].fns|
    ensures x in DirectCalls(InlineFns(p, d, from, next)[i - from].body) <==>
      Leaves(p, d, DirectCalls(p.defs[d].fns[i].body), x)
    decreases i - from
  {
    hide Marked, Leaves, Inline, DirectCalls;
    var fns := p.defs[d].fns;
    BodyRefs(fns, from);
    CallsLeft(p, d, fns[from].body, next, x);
    if from < i {
      FnsCallsLeft(p, d, from + 1, Inline(p, d, fns[from].body, next).next, i, x);
    }
  }

  // ----- when an eligible call is left -----

  /** Following eligible calls from `d`'s code, some over-applied helper is a bare name that the
      surplus arguments make the eligible call `x`. */
  ghost predicate OverApplies(p: Program, d: nat, calls: set<Call>, x: Call)
    requires Marked(p)
    decreases ReachSet(p, d), 1
  {
    exists c :: c in calls && OverAppliesOne(p, d, c, x)
  }

  ghost predicate OverAppliesOne(p: Program, d: nat, c: Call, x: Call)
    requires Marked(p)
    decreases ReachSet(p, d), 0
  {
    Eligible(p, d, c) &&
    (x in Surplus(p, c) ||
     (RefersTo(p, d, c.name) &&
      (CalleeReachesLess(p, d, c.name); OverApplies(p, c.name, DirectCalls(Helper(p, c).body), x))))
  }

  /** One file, one notion of eligibility. */
  lemma SameFile(p: Program, d: nat, c: Call, x: Call)
    requires Eligible(p, d, c)
    ensures Eligible(p, c.name, x) <==> Eligible(p, d, x)
  {
  }

  lemma {:induction false} EligibleLeaves(p: Program, d: nat, calls: set<Call>, x: Call)
    requires Marked(p) && Eligible(p, d, x)
    ensures Leaves(p, d, calls, x) <==> OverApplies(p, d, calls, x)
    decreases ReachSet(p, d), 1
  {
    hide Eligible, RefersTo, Marked, ReachSet;
    forall c | c in calls ensures LeavesOne(p, d, c, x) <==> OverAppliesOne(p, d, c, x) {
      EligibleLeavesOne(p, d, c, x);
    }
  }

  lemma {:induction false} EligibleLeavesOne(p: Program, d: nat, c: Call, x: Call)
    requires Marked(p) && Eligible(p, d, x)
    ensures LeavesOne(p, d, c, x) <==> OverAppliesOne(p, d, c, x)
    decreases ReachSet(p, d), 0
  {
    hide Leaves, OverApplies, RefersTo, Marked, ReachSet;
    if Eligible(p, d, c) && RefersTo(p, d, c.name) {
      SameFile(p, d, c, x);
      CalleeReachesLess(p, d, c.name);
      EligibleLeaves(p, c.name, DirectCalls(Helper(p, c).body), x);
    }
  }

  /** Folding leaves an eligible call behind exactly when an over-applied bare name makes it. */
  lemma EligibleLeft(p: Program, d: nat, e: Expr, next: nat, x: Call)
    requires Marked(p) && d in p.defs && Refs(e) <= DefRefs(p.defs[d].fns) && Eligible(p, d, x)
    ensures x in DirectCalls(Inline(p, d, e, next).e) <==> OverApplies(p, d, DirectCalls(e), x)
  {
    hide Marked, Eligible, Leaves, OverApplies, Inline;
    CallsLeft(p, d, e, next, x);
    EligibleLeaves(p, d, DirectCalls(e), x);
  }

  /** No helper of the file is a bare name. */
  ghost predicate NoBareHelper(p: Program, d: nat) {
    forall c :: Eligible(p, d, c) ==> !Helper(p, c).body.Global?
  }

  lemma {:induction false} NothingOverApplies(p: Program, d: nat, calls: set<Call>, x: Call)
    requires Marked(p) && NoBareHelper(p, d)
    ensures !OverApplies(p, d, calls, x)
    decreases ReachSet(p, d)
  {
    hide Marked, ReachSet, RefersTo;
    if OverApplies(p, d, calls, x) {
      var c :| c in calls && OverAppliesOne(p, d, c, x);
      assert x !in Surplus(p, c);
      assert NoBareHelper(p, c.name);
      CalleeReachesLess(p, d, c.name);
      NothingOverApplies(p, c.name, DirectCalls(Helper(p, c).body), x);
    }
  }

  /** Then no folded function of the file holds an eligible call, spliced code included. */
  lemma NoneLeft(p: Program, d: nat, i: nat, x: Call)
    requires Marked(p) && d in p.defs && i < |p.defs[d].fns| && NoBareHelper(p, d) && Eligible(p, d, x)
    ensures |Inlined(p).defs[d].fns| == |p.defs[d].fns| && x !in DirectCalls(Inlined(p).defs[d].fns[i].body)
  {
    hide Marked, Eligible, NoBareHelper, Leaves, OverApplies, DirectCalls, Inlined;
    ProgramCallsLeft(p, d, i, x);
    EligibleLeaves(p, d, DirectCalls(p.defs[d].fns[i].body), x);
    NothingOverApplies(p, d, DirectCalls(p.defs[d].fns[i].body), x);
  }

  // ----- a call that is left -----

  /** `f a b = g a b`, `g a = h` and `h a = a` in one file. */
  const FORWARDING := Program(
    map[0 := Def(0, [Fn([0, 1], [], App(Global(1), [Local(0), Local(1)]))], 0),
        1 := Def(0, [Fn([0], [], Global(2))], 0),
        2 := Def(0, [Fn([0], [], Local(0))], 0)],
    {})

  lemma ForwardingRefers(a: nat, b: nat)
    requires RefersTo(FORWARDING, a, b)
    ensures a < b
  {
  }

  lemma {:induction false} ForwardingReaches(a: nat, b: nat, steps: nat)
    requires ReachesIn(FORWARDING, a, b, steps)
    ensures a < b
    decreases steps
  {
    if steps == 0 {
      ForwardingRefers(a, b);
    } else {
      var c :| RefersTo(FORWARDING, a, c) && ReachesIn(FORWARDING, c, b, steps - 1);
      ForwardingRefers(a, c);
      ForwardingReaches(c, b, steps - 1);
    }
  }

  lemma ForwardingAcyclic(a: nat)
    ensures !Reaches(FORWARDING, a, a)
  {
    if steps: nat :| ReachesIn(FORWARDING, a, a, steps) {
      ForwardingReaches(a, a, steps);
    }
  }

  /** `f`'s folded body still applies the eligible `h`: folding is not repeated on a surplus application. */
  lemma SurplusCallIsLeft(next: nat)
    ensures Marked(FORWARDING) && 0 in FORWARDING.defs && Eligible(FORWARDING, 0, Call(2, 1))
    ensures Refs(FORWARDING.defs[0].fns[0].body) <= DefRefs(FORWARDING.defs[0].fns)
    ensures Call(2, 1) in DirectCalls(Inline(FORWARDING, 0, FORWARDING.defs[0].fns[0].body, next).e)
  {
    forall a ensures !Reaches(FORWARDING, a, a) { ForwardingAcyclic(a); }
    assert Marked(FORWARDING);
    var body := FORWARDING.defs[0].fns[0].body;
    BodyRefs(FORWARDING.defs[0].fns, 0);
    assert Eligible(FORWARDING, 0, Call(1, 2));
    assert Call(1, 2) in DirectCalls(body);
    assert OverAppliesOne(FORWARDING, 0, Call(1, 2), Call(2, 1));
    EligibleLeft(FORWARDING, 0, body, next, Call(2, 1));
  }
}
