/** Whole bodies, evaluated with every field retained and with marked fields moved out. */
module TakeFieldsEval {
  import opened Machine
  import opened Core
  import opened TakeFields
  import opened TakeFieldsRuns

  type WordEnv = map<nat, Word>

  datatype Words = Words(ws: seq<Word>, heap: Heap) | Stopped(o: Out)

  /** Calls, allocation and primitives transform the heap in their own way; `None` aborts. */
  datatype HeapOps = HeapOps(node: (NodeKind, seq<Word>, Heap) -> Option<(Word, Heap)>)

  /** Immutable data never comes to refer to itself. */
  ghost predicate Tame(ops: HeapOps) {
    forall kind, ws, h :: NoSelf(h) && ops.node(kind, ws, h).Some? ==> NoSelf(ops.node(kind, ws, h).value.1)
  }

  /** Which fields may be moved out, and at which reads code generation does so. */
  datatype Mode = Mode(taken: set<Field>, eligible: Expr -> bool)

  const RETAIN_ALL: Mode := Mode({}, _ => false)

  function Node(ops: HeapOps, kind: NodeKind, ws: seq<Word>, h: Heap): Out {
    match ops.node(kind, ws, h)
    case Some(r) => Done(r.0, r.1)
    case None => Aborts
  }

  function OnWords(ops: HeapOps, kind: NodeKind, r: Words): Out {
    if r.Words? then Node(ops, kind, r.ws, r.heap) else r.o
  }

  function Lookups(env: WordEnv, ids: seq<nat>, h: Heap): Words
    decreases |ids|
  {
    if ids == [] then Words([], h)
    else if ids[0] !in env then Stopped(IllFormed)
    else
      var rest := Lookups(env, ids[1..], h);
      if rest.Words? then Words([env[ids[0]]] + rest.ws, rest.heap) else rest
  }

  /** Literals are immediate, or immortal and so uncounted. */
  function LitWord(l: Lit): Word {
    match l
    case IntLit(n) => Imm(n)
    case FloatLit(bits) => Imm(bits)
    case BoolLit(b) => Imm(if b then 1 else 0)
    case UnitLit => UNIT_WORD
    case CharLit(c) => Imm(c)
    case StringLit(id) => Imm(id)
  }

  /** Evaluation goes on after a release. */
  function Released(h: Heap, w: Word): Out {
    match Release(h, [w])
    case Some(after) => Done(UNIT_WORD, after)
    case None => Dangling
  }

  function Eval(ops: HeapOps, mode: Mode, e: Expr, env: WordEnv, h: Heap): Out
    decreases e, 0
  {
    match e
    case Local(x) => if x in env then Done(env[x], h) else IllFormed
    case Lit(lit) => Done(LitWord(lit), h)
    case Global(name) => Node(ops, GlobalNode(name), [], h)
    case Error => Aborts
    case Let(local, value, body) =>
      var v := Eval(ops, mode, value, env, h);
      if v.Done? then Eval(ops, mode, body, env[local := v.w], v.heap) else NotLoop(v)
    case If(cond, thn, els) =>
      var c := Eval(ops, mode, cond, env, h);
      if !c.Done? then NotLoop(c)
      else if c.w.Imm? then Eval(ops, mode, if c.w.n != 0 then thn else els, env, c.heap) else IllFormed
    case Prim(op, args) => OnWords(ops, PrimNode(op), EvalAll(ops, mode, args, env, h))
    case MakeData(tag, args) => OnWords(ops, DataNode(tag), EvalAll(ops, mode, args, env, h))
    case Foreign(symbol, args) => OnWords(ops, ForeignNode(symbol), EvalAll(ops, mode, args, env, h))
    case App(func, args) =>
      var f := Eval(ops, mode, func, env, h);
      if !f.Done? then NotLoop(f)
      else
        var r := EvalAll(ops, mode, args, env, f.heap);
        if r.Words? then Node(ops, AppNode, [f.w] + r.ws, r.heap) else r.o
    case Recur(args) =>
      var r := EvalAll(ops, mode, args, env, h);
      if r.Words? then Loops(r.ws, r.heap) else r.o
    case DataField(base, index) =>
      if base.Local? then
        if base.id in env then Read(mode.eligible(e) && (base.id, index) in mode.taken, h, env[base.id], index)
            else IllFormed
      else
        var b := Eval(ops, mode, base, env, h);
        if b.Done? then Node(ops, FieldNode(index), [b.w], b.heap) else NotLoop(b)
    case DataTag(base) =>
      var b := Eval(ops, mode, base, env, h);
      if b.Done? then Node(ops, TagNode, [b.w], b.heap) else NotLoop(b)
    case MakeClosure(fn, captures) => OnWords(ops, ClosureNode(fn), Lookups(env, captures, h))
    case Dup(x, body) =>
      if x !in env then IllFormed
      else
        var r := Retain(h, env[x]);
        if r.Some? then Eval(ops, mode, body, env, r.value) else Dangling
    case Drop(x, body) =>
      if x !in env then IllFormed
      else
        var r := Released(h, env[x]);
        if r.Done? then Eval(ops, mode, body, env, r.heap) else r
    case Reset(value, _, body) =>
      var v := Eval(ops, mode, value, env, h);
      if !v.Done? then NotLoop(v)
      else
        var r := Released(v.heap, v.w);
        if r.Done? then Eval(ops, mode, body, env, r.heap) else r
    case FreeReuse(_, body) => Eval(ops, mode, body, env, h)
    case Join(_, _) => IllFormed
  }

  /** A back-edge where a value is due is ill-formed. */
  function NotLoop(o: Out): Out {
    if o.Loops? then IllFormed else o
  }

  function EvalAll(ops: HeapOps, mode: Mode, args: seq<Expr>, env: WordEnv, h: Heap): Words
    decreases args, 1
  {
    if args == [] then Words([], h)
    else
      var first := Eval(ops, mode, args[0], env, h);
      if !first.Done? then Stopped(NotLoop(first))
      else
        var rest := EvalAll(ops, mode, args[1..], env, first.heap);
        if rest.Words? then Words([first.w] + rest.ws, rest.heap) else rest
  }

  // ----- no self-reference appears -----

  ghost predicate Clean(o: Out) {
    (o.Done? || o.Loops?) ==> NoSelf(o.heap)
  }

  lemma {:induction false} ReleaseNoSelf(h: Heap, pending: seq<Word>)
    requires NoSelf(h) && Release(h, pending).Some?
    ensures NoSelf(Release(h, pending).value)
    decreases Total(h), |pending|
  {
    if pending != [] {
      match pending[0]
      case Imm(_) => ReleaseNoSelf(h, pending[1..]);
      case Ptr(a) =>
        TotalUpdate(h, a, Drop1(h, a)[a]);
        ReleaseNoSelf(Drop1(h, a), Freed(h, a) + pending[1..]);
    }
  }

  lemma ReadNoSelf(h: Heap, owner: Word, i: nat)
    requires NoSelf(h)
    ensures Clean(Read(false, h, owner, i))
  {
  }

  // ----- outside groups both heaps are the same -----

  ghost predicate Scoped(e: Expr, env: WordEnv) {
    BoundOnce(e) && Binders(e) !! env.Keys
  }

  ghost predicate ScopedAll(args: seq<Expr>, env: WordEnv) {
    BoundOnceIn(args) && BindersIn(args) !! env.Keys
  }

  /** The same outcome, heap included, unless the retaining run touches a freed cell. */
  ghost predicate Same(ops: HeapOps, mode: Mode, e: Expr, env: WordEnv, kept: Heap, took: Heap) {
    var k := Eval(ops, RETAIN_ALL, e, env, kept);
    k != Dangling ==> Eval(ops, mode, e, env, took) == k && Clean(k)
  }

  ghost predicate SameAll(ops: HeapOps, mode: Mode, args: seq<Expr>, env: WordEnv, h: Heap) {
    var k := EvalAll(ops, RETAIN_ALL, args, env, h);
    k != Stopped(Dangling) ==>
      && EvalAll(ops, mode, args, env, h) == k
      && (k.Words? ==> NoSelf(k.heap)) && (k.Stopped? ==> !k.o.Done? && !k.o.Loops?)
  }

  lemma {:induction false} MovingSame(ops: HeapOps, mode: Mode, e: Expr, env: WordEnv, h: Heap)
    requires Tame(ops) && NoSelf(h) && Marked(mode.taken, e, false) && Scoped(e, env)
    ensures Same(ops, mode, e, env, h, h)
    decreases e, 2, 0
  {
    hide Read, Group, Released, Retain, Lookups;
    match e
    case Let(_, _, _) => if Group(e) { GroupStart(ops, mode, e, env, h); } else { MovingLet(ops, mode, e, env, h); }
    case If(_, _, _) => MovingIf(ops, mode, e, env, h);
    case Prim(_, _) => MovingNode(ops, mode, e, env, h);
    case MakeData(_, _) => MovingNode(ops, mode, e, env, h);
    case Foreign(_, _) => MovingNode(ops, mode, e, env, h);
    case Recur(_) => MovingNode(ops, mode, e, env, h);
    case App(func, args) => MovingApp(ops, mode, e, env, h);
    case DataField(base, index) => MovingField(ops, mode, e, env, h);
    case DataTag(base) => MovingSame(ops, mode, base, env, h);
    case MakeClosure(_, captures) => LookupsHeap(env, captures, h);
    case Dup(x, body) => MovingDup(ops, mode, e, env, h);
    case Drop(x, body) => MovingDrop(ops, mode, e, env, h);
    case Reset(_, _, _) => MovingReset(ops, mode, e, env, h);
    case FreeReuse(_, body) => MovingSame(ops, mode, body, env, h);
    case _ =>
  }

  lemma {:induction false} MovingNode(ops: HeapOps, mode: Mode, e: Expr, env: WordEnv, h: Heap)
    requires e.Prim? || e.MakeData? || e.Foreign? || e.Recur?
    requires Tame(ops) && NoSelf(h) && Marked(mode.taken, e, false) && Scoped(e, env)
    ensures Same(ops, mode, e, env, h, h)
    decreases e, 1, 0
  {
    MovingAll(ops, mode, e.args, env, h);
  }

  lemma {:induction false} MovingField(ops: HeapOps, mode: Mode, e: Expr, env: WordEnv, h: Heap)
    requires e.DataField? && Tame(ops) && NoSelf(h) && Marked(mode.taken, e, false) && Scoped(e, env)
    ensures Same(ops, mode, e, env, h, h)
    decreases e, 1, 0
  {
    hide Read;
    if e.base.Local? {
      if e.base.id in env { ReadNoSelf(h, env[e.base.id], e.index); }
    } else {
      MovingSame(ops, mode, e.base, env, h);
    }
  }

  lemma {:induction false} MovingLet(ops: HeapOps, mode: Mode, e: Expr, env: WordEnv, h: Heap)
    requires e.Let? && !Group(e) && Tame(ops) && NoSelf(h) && Marked(mode.taken, e, false) && Scoped(e, env)
    ensures Same(ops, mode, e, env, h, h)
    decreases e, 1, 0
  {
    hide Tame;
    MovingSame(ops, mode, e.value, env, h);
    var v := Eval(ops, RETAIN_ALL, e.value, env, h);
    if v.Done? { MovingSame(ops, mode, e.body, env[e.local := v.w], v.heap); }
  }

  lemma {:induction false} MovingIf(ops: HeapOps, mode: Mode, e: Expr, env: WordEnv, h: Heap)
    requires e.If? && Tame(ops) && NoSelf(h) && Marked(mode.taken, e, false) && Scoped(e, env)
    ensures Same(ops, mode, e, env, h, h)
    decreases e, 1, 0
  {
    hide Tame;
    MovingSame(ops, mode, e.cond, env, h);
    var c := Eval(ops, RETAIN_ALL, e.cond, env, h);
    if c.Done? && c.w.Imm? { MovingSame(ops, mode, if c.w.n != 0 then e.thn else e.els, env, c.heap); }
  }

  lemma {:induction false} LookupsHeap(env: WordEnv, ids: seq<nat>, h: Heap)
    ensures var r := Lookups(env, ids, h); if r.Words? then r.heap == h else r.o == IllFormed
    decreases |ids|
  {
    if ids != [] { LookupsHeap(env, ids[1..], h); }
  }

  lemma {:induction false} MovingApp(ops: HeapOps, mode: Mode, e: Expr, env: WordEnv, h: Heap)
    requires e.App? && Tame(ops) && NoSelf(h) && Marked(mode.taken, e, false) && Scoped(e, env)
    ensures Same(ops, mode, e, env, h, h)
    decreases e, 1, 0
  {
    MovingSame(ops, mode, e.func, env, h);
    var f := Eval(ops, RETAIN_ALL, e.func, env, h);
    if f.Done? { MovingAll(ops, mode, e.args, env, f.heap); }
  }

  lemma {:induction false} MovingDup(ops: HeapOps, mode: Mode, e: Expr, env: WordEnv, h: Heap)
    requires e.Dup? && Tame(ops) && NoSelf(h) && Marked(mode.taken, e, false) && Scoped(e, env)
    ensures Same(ops, mode, e, env, h, h)
    decreases e, 1, 0
  {
    if e.local in env {
      var r := Retain(h, env[e.local]);
      if r.Some? { MovingSame(ops, mode, e.body, env, r.value); }
    }
  }

  lemma {:induction false} MovingDrop(ops: HeapOps, mode: Mode, e: Expr, env: WordEnv, h: Heap)
    requires e.Drop? && Tame(ops) && NoSelf(h) && Marked(mode.taken, e, false) && Scoped(e, env)
    ensures Same(ops, mode, e, env, h, h)
    decreases e, 1, 0
  {
    if e.local in env && Release(h, [env[e.local]]).Some? {
      ReleaseNoSelf(h, [env[e.local]]);
      MovingSame(ops, mode, e.body, env, Release(h, [env[e.local]]).value);
    }
  }

  lemma {:induction false} MovingReset(ops: HeapOps, mode: Mode, e: Expr, env: WordEnv, h: Heap)
    requires e.Reset? && Tame(ops) && NoSelf(h) && Marked(mode.taken, e, false) && Scoped(e, env)
    ensures Same(ops, mode, e, env, h, h)
    decreases e, 1, 0
  {
    MovingSame(ops, mode, e.value, env, h);
    var v := Eval(ops, RETAIN_ALL, e.value, env, h);
    if v.Done? && Release(v.heap, [v.w]).Some? {
      ReleaseNoSelf(v.heap, [v.w]);
      MovingSame(ops, mode, e.body, env, Release(v.heap, [v.w]).value);
    }
  }

  lemma {:induction false} MovingAll(ops: HeapOps, mode: Mode, args: seq<Expr>, env: WordEnv, h: Heap)
    requires Tame(ops) && NoSelf(h) && AllMarked(mode.taken, args) && ScopedAll(args, env)
    ensures SameAll(ops, mode, args, env, h)
    decreases args, 3, 0
  {
    if args != [] {
      hide Tame;
      MovingSame(ops, mode, args[0], env, h);
      var first := Eval(ops, RETAIN_ALL, args[0], env, h);
      if first.Done? { MovingAll(ops, mode, args[1..], env, first.heap); }
    }
  }

  // ----- inside a group -----

  /** Nothing has been moved yet. */
  lemma NothingMoved(h: Heap, a: nat)
    requires a < |h|
    ensures Moved(h, h, a, {})
  {
    assert forall b: nat :: MovedTo(h[a].fields, {}, b) == {};
  }

  lemma {:induction false} GroupStart(ops: HeapOps, mode: Mode, e: Expr, env: WordEnv, h: Heap)
    requires Group(e) && Tame(ops) && NoSelf(h) && Marked(mode.taken, e, false) && Scoped(e, env)
    ensures Same(ops, mode, e, env, h, h)
    decreases e, 1, 1
  {
    var root := e.value.base.id;
    if root in env && env[root].Ptr? && env[root].addr < |h| {
      NothingMoved(h, env[root].addr);
      InGroup(ops, mode, e, env, h, h, {}, root, []);
    }
  }

  /** Reads of one owner and its release: whatever was moved out on the way, the heaps
      meet again once the owner is released, and no moved field is read again. */
  lemma {:induction false} InGroup(ops: HeapOps, mode: Mode, e: Expr, env: WordEnv, kept: Heap, took: Heap,
      moved: set<nat>, root: nat, seen: seq<nat>)
    requires GroupRest(e, root, seen) && (forall i :: i in moved ==> i in seen)
    requires root in env && env[root].Ptr? && Moved(kept, took, env[root].addr, moved)
    requires Tame(ops) && NoSelf(kept) && Marked(mode.taken, e, false) && Scoped(e, env)
    ensures Same(ops, mode, e, env, kept, took)
    decreases e, 1, 0
  {
    if e.Let? {
      var take := mode.eligible(e.value) && (root, e.value.index) in mode.taken;
      var k, t := Read(false, kept, env[root], e.value.index), Read(take, took, env[root], e.value.index);
      ReadRetained(ops, e.value, env, kept);
      ReadTaking(ops, mode, e.value, env, took);
      hide Moved, Tame, Read, NoSelf, GroupRest;
      if k != Dangling {
        ReadMoved(take, kept, took, env[root].addr, moved, e.value.index);
        if k.Done? {
          GroupStep(e, root, seen);
          var more := if Moved(k.heap, t.heap, env[root].addr, moved) then moved else moved + {e.value.index};
          InGroup(ops, mode, e.body, env[e.local := k.w], k.heap, t.heap, more, root, seen + [e.value.index]);
        }
      }
    } else {
      GroupEnd(ops, mode, e, env, kept, took, moved, root);
    }
  }

  lemma GroupStep(e: Expr, root: nat, seen: seq<nat>)
    requires e.Let? && GroupRest(e, root, seen)
    ensures IsRead(e.value) && e.value.base.id == root && e.value.index !in seen
    ensures GroupRest(e.body, root, seen + [e.value.index])
  {
  }

  /** The release that ends a group. */
  lemma {:induction false} GroupEnd(ops: HeapOps, mode: Mode, e: Expr, env: WordEnv, kept: Heap, took: Heap,
      moved: set<nat>, root: nat)
    requires Releases(e, root) && root in env && env[root].Ptr? && Moved(kept, took, env[root].addr, moved)
    requires Tame(ops) && NoSelf(kept) && Marked(mode.taken, e, false) && Scoped(e, env)
    ensures Same(ops, mode, e, env, kept, took)
    decreases e, 0, 0
  {
    hide Moved, Tame, NoSelf;
    OwnerReleased(kept, took, env[root].addr, moved);
    assert [env[root]] == [Ptr(env[root].addr)];
    var r := Release(kept, [env[root]]);
    assert Release(took, [env[root]]) == r;
    hide Release;
    if e.Reset? {
      assert Eval(ops, RETAIN_ALL, e.value, env, kept) == Done(env[root], kept);
      assert Eval(ops, mode, e.value, env, took) == Done(env[root], took);
    }
    if r.Some? {
      ReleaseNoSelf(kept, [env[root]]);
      MovingSame(ops, mode, e.body, env, r.value);
    }
  }

  lemma ReadTaking(ops: HeapOps, mode: Mode, e: Expr, env: WordEnv, h: Heap)
    requires IsRead(e) && e.base.id in env
    ensures Eval(ops, mode, e, env, h) ==
      Read(mode.eligible(e) && (e.base.id, e.index) in mode.taken, h, env[e.base.id], e.index)
  {
  }

  lemma ReadRetained(ops: HeapOps, e: Expr, env: WordEnv, h: Heap)
    requires IsRead(e) && e.base.id in env
    ensures Eval(ops, RETAIN_ALL, e, env, h) == Read(false, h, env[e.base.id], e.index)
  {
  }

  /** Moving out the collected fields instead of retaining them leaves every outcome and
      every reference count as it was, at whichever of the reads code generation moves. */
  lemma TakingPreservesCounts(ops: HeapOps, eligible: Expr -> bool, body: Expr, env: WordEnv, h: Heap)
    requires Tame(ops) && NoSelf(h) && Scoped(body, env)
    requires Eval(ops, RETAIN_ALL, body, env, h) != Dangling
    ensures Eval(ops, Mode(Collect(body), eligible), body, env, h) == Eval(ops, RETAIN_ALL, body, env, h)
  {
    CollectedIsMarked(body);
    MovingSame(ops, Mode(Collect(body), eligible), body, env, h);
  }
}
