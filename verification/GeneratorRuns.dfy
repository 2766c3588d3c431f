/** The synthesised generators: for every size and seed generation ends, with a value of
    the type asked for. */
module GeneratorRuns {
  import opened Machine
  import opened Sets
  import opened GeneratorTypes
  import opened GeneratorRanks

  /** Generated values. `Leaf` stands for a primitive or a value of the user's own generator. */
  datatype Value =
    | Leaf(of: Ty, bits: int) | Fields(vals: seq<Value>) | Sequence(vals: seq<Value>)
    | NoneV | SomeV(v: Value) | OkV(v: Value) | ErrV(v: Value) | CtorV(of: Ty, ctor: nat, vals: seq<Value>)

  predicate HasType(d: Decls, ty: Ty, v: Value)
    decreases v, 0
  {
    if ty in d.custom then v.Leaf? && v.of == ty
    else match ty
      case Tuple(es) => v.Fields? && HaveTypes(d, es, v.vals)
      case Record(fs) => v.Fields? && HaveTypes(d, fs, v.vals)
      case List(e) => v.Sequence? && AllHaveType(d, e, v.vals)
      case Array(e) => v.Sequence? && AllHaveType(d, e, v.vals)
      case OptionOf(e) => v.NoneV? || (v.SomeV? && HasType(d, e, v.v))
      case ResultOf(ok, err) => (v.OkV? && HasType(d, ok, v.v)) || (v.ErrV? && HasType(d, err, v.v))
      case Adt(_, _) =>
        v.CtorV? && v.of == ty && ty in d.ctors && v.ctor < |d.ctors[ty]| && HaveTypes(d, d.ctors[ty][v.ctor], v.vals)
      case Other(_) => false
      case _ => v.Leaf? && v.of == ty
  }

  predicate HaveTypes(d: Decls, tys: seq<Ty>, vs: seq<Value>)
    decreases vs, 1
  {
    |tys| == |vs| && (vs == [] || (HasType(d, tys[0], vs[0]) && HaveTypes(d, tys[1..], vs[1..])))
  }

  predicate AllHaveType(d: Decls, ty: Ty, vs: seq<Value>)
    decreases vs, 1
  {
    vs == [] || (HasType(d, ty, vs[0]) && AllHaveType(d, ty, vs[1..]))
  }

  /** The random source: `draw` advances the seed and gives a non-negative number, `leaf`
      draws a primitive or a user-defined value. */
  datatype Random = Random(draw: I64 -> (NonNegative, I64), leaf: (Ty, I64, I64) -> (int, I64))

  type NonNegative = n: I64 | 0 <= n

  /** What generation is synthesised from. `world` holds the types a generator was built
      for: it is closed under what generating them needs, and all of them ground. */
  datatype Context = Context(d: Decls, ranks: Ranks, adts: set<Ty>, world: set<Ty>, random: Random)

  predicate Buildable(d: Decls, ty: Ty) {
    || ty in d.custom
    || match ty
       case Tuple(es) => 2 <= |es| <= 4
       case Other(_) => false
       case _ => true
  }

  /** More than the parts of any type in memory. */
  const NESTING: nat := 0x8000_0000

  /** Ranks are 32-bit numbers. */
  const RANK_MAX: nat := 0xffff_ffff

  ghost predicate Synthesised(cx: Context) {
    && Settled(cx.d, cx.ranks, cx.adts) && Closed(cx.d, cx.adts)
    && (forall t :: t in cx.world ==> Buildable(cx.d, t) && Clean(cx.d, None, t, cx.adts))
    && (forall t, c :: t in cx.world && c in Children(cx.d, t) ==> c in cx.world)
    && (forall t :: t in cx.world && t.Adt? && t !in cx.d.custom ==> t in cx.ranks)
    && forall t :: t in cx.world ==> TySize(t) < NESTING && RankValue(cx, t) <= RANK_MAX
  }

  // ----- why it ends -----

  /** Declared types generating `ty` can come to. */
  ghost function ReachableAdts(cx: Context, ty: Ty): set<Ty> {
    set t | t in cx.adts && Reaches(cx.d, ty, t)
  }

  function TySize(ty: Ty): nat
    decreases ty, 0
  {
    match ty
    case Tuple(es) => 1 + TySizes(es)
    case Record(fs) => 1 + TySizes(fs)
    case List(e) => 1 + TySize(e)
    case Array(e) => 1 + TySize(e)
    case OptionOf(e) => 1 + TySize(e)
    case ResultOf(ok, err) => 1 + TySize(ok) + TySize(err)
    case _ => 0
  }

  function TySizes(tys: seq<Ty>): nat
    decreases tys, 1
  {
    if tys == [] then 0 else TySize(tys[0]) + TySizes(tys[1..])
  }

  lemma {:induction false} PartSize(tys: seq<Ty>, i: nat)
    requires i < |tys|
    ensures TySize(tys[i]) <= TySizes(tys)
    decreases i
  {
    if i > 0 { PartSize(tys[1..], i - 1); }
  }

  function Budget(size: int): nat {
    if size > 0 then size else 0
  }

  function RankValue(cx: Context, ty: Ty): nat {
    if RankOf(cx.d, cx.ranks, ty).Some? then RankOf(cx.d, cx.ranks, ty).value else 0
  }

  /** Above the floor, how many declared types can still come up; at the floor, the depth
      of the smallest value. */
  ghost function Level(cx: Context, ty: Ty, size: int): nat {
    if size > 0 then |ReachableAdts(cx, ty)| else RankValue(cx, ty)
  }

  /** No more steps than this are taken at the floor. */
  function Descent(cx: Context, ty: Ty): nat {
    RankValue(cx, ty) * NESTING + TySize(ty)
  }

  /** Whether sizes may still wrap: only a size that starts within a descent of the least
      integer can, and the size it wraps to never comes back there. */
  function Wraps(cx: Context, ty: Ty, size: I64): nat {
    if size <= 0 && size - Descent(cx, ty) < I64_MIN then 1 else 0
  }

  /** The measure of generating `f` at `s` is below that of generating `ty` at `size`. */
  ghost predicate Below(cx: Context, f: Ty, s: I64, ty: Ty, size: I64) {
    || Wraps(cx, f, s) < Wraps(cx, ty, size)
    || (Wraps(cx, f, s) == Wraps(cx, ty, size) && Budget(s) < Budget(size))
    || (Wraps(cx, f, s) == Wraps(cx, ty, size) && Budget(s) == Budget(size) && Level(cx, f, s) < Level(cx, ty, size))
    || (Wraps(cx, f, s) == Wraps(cx, ty, size) && Budget(s) == Budget(size) && Level(cx, f, s) == Level(cx, ty, size)
        && TySize(f) < TySize(ty))
  }

  /** A slice of the size left after the node itself; the least size wraps around. */
  function SplitBudget(size: I64, k: nat): I64 {
    var left := Wrap(size - 1);
    if k <= 1 || k > I64_MAX then left else TruncDiv(left, k)
  }

  lemma SplitShrinks(size: I64, k: nat)
    ensures size > 0 ==> 0 <= SplitBudget(size, k) < size
    ensures I64_MIN < size <= 0 ==> size - 1 <= SplitBudget(size, k) <= 0
    ensures size == I64_MIN ==> SplitBudget(size, k) >= 0
  {
    assert size > I64_MIN ==> Wrap(size - 1) == size - 1;
    assert size == I64_MIN ==> Wrap(size - 1) == I64_MAX;
  }

  /** Sizes at the floor wrap at most once, and then generation is above the floor. */
  lemma WrapsOnce(cx: Context, f: Ty, s: I64, ty: Ty, size: I64, k: nat)
    requires Synthesised(cx) && f in cx.world && (s == size || s == SplitBudget(size, k))
    requires size <= 0 ==> Descent(cx, f) < Descent(cx, ty)
    ensures if size > 0 then Wraps(cx, f, s) == Wraps(cx, ty, size) && Budget(s) <= Budget(size)
      else Wraps(cx, f, s) < Wraps(cx, ty, size) || (Wraps(cx, f, s) == Wraps(cx, ty, size) && Budget(s) == 0)
  {
    SplitShrinks(size, k);
    assert Descent(cx, f) <= RANK_MAX * NESTING + NESTING;
  }

  lemma ReachableShrinks(cx: Context, ty: Ty, f: Ty)
    requires f in Children(cx.d, ty)
    ensures ReachableAdts(cx, f) <= ReachableAdts(cx, ty)
    ensures |ReachableAdts(cx, f)| <= |ReachableAdts(cx, ty)|
    ensures ty in cx.adts && !Reaches(cx.d, f, ty) ==> |ReachableAdts(cx, f)| < |ReachableAdts(cx, ty)|
  {
    forall t | t in ReachableAdts(cx, f) ensures t in ReachableAdts(cx, ty) {
      ReachesStep(cx.d, ty, f, t);
    }
    SubsetSize(ReachableAdts(cx, f), ReachableAdts(cx, ty));
    ReachesSelf(cx.d, ty);
    assert ty in cx.adts ==> ty in ReachableAdts(cx, ty);
  }

  lemma {:induction false} PartRank(d: Decls, ranks: Ranks, tys: seq<Ty>, i: nat)
    requires i < |tys| && MaxRank(d, ranks, tys).Some?
    ensures RankOf(d, ranks, tys[i]).Some? && RankOf(d, ranks, tys[i]).value <= MaxRank(d, ranks, tys).value
    decreases i
  {
    if i > 0 { PartRank(d, ranks, tys[1..], i - 1); }
  }

  /** Everything generation can meet has a rank. */
  lemma {:induction false} WorldRanked(cx: Context, ty: Ty)
    requires Synthesised(cx) && ty in cx.world
    ensures RankOf(cx.d, cx.ranks, ty).Some?
    decreases ty, 0
  {
    if ty !in cx.d.custom {
      match ty
      case Tuple(es) => PartsRanked(cx, es);
      case Record(fs) => PartsRanked(cx, fs);
      case ResultOf(ok, err) => assert ok in Children(cx.d, ty); WorldRanked(cx, ok);
      case _ =>
    }
  }

  lemma {:induction false} PartsRanked(cx: Context, tys: seq<Ty>)
    requires Synthesised(cx) && forall t :: t in tys ==> t in cx.world
    ensures MaxRank(cx.d, cx.ranks, tys).Some?
    decreases tys, 1
  {
    if tys != [] {
      WorldRanked(cx, tys[0]);
      PartsRanked(cx, tys[1..]);
    }
  }

  /** A part of a structural type is below it, at the same size or a slice of it. */
  lemma PartBelow(cx: Context, f: Ty, s: I64, ty: Ty, size: I64, k: nat)
    requires Synthesised(cx) && ty in cx.world && ty !in cx.d.custom && f in Children(cx.d, ty)
    requires s == size || s == SplitBudget(size, k)
    requires ty.Tuple? || ty.Record? || (ty.ResultOf? && f == ty.ok) ||
      (size > 0 && (ty.List? || ty.Array? || ty.OptionOf? || ty.ResultOf?))
    ensures Below(cx, f, s, ty, size)
  {
    ReachableShrinks(cx, ty, f);
    PartSmaller(cx.d, f, ty);
    WorldRanked(cx, ty);
    if size <= 0 { RankNoLarger(cx.d, cx.ranks, f, ty); }
    WrapsOnce(cx, f, s, ty, size, k);
    SplitShrinks(size, k);
  }

  lemma RankNoLarger(d: Decls, ranks: Ranks, f: Ty, ty: Ty)
    requires ty !in d.custom && RankOf(d, ranks, ty).Some? && f in Children(d, ty)
    requires ty.Tuple? || ty.Record? || (ty.ResultOf? && f == ty.ok)
    ensures RankOf(d, ranks, f).Some? && RankOf(d, ranks, f).value <= RankOf(d, ranks, ty).value
  {
    if ty.Tuple? || ty.Record? {
      var tys := if ty.Tuple? then ty.elems else ty.fields;
      var i :| 0 <= i < |tys| && tys[i] == f;
      PartRank(d, ranks, tys, i);
    }
  }

  lemma PartSmaller(d: Decls, f: Ty, ty: Ty)
    requires ty !in d.custom && f in Children(d, ty) && !ty.Adt?
    ensures TySize(f) < TySize(ty)
  {
    if ty.Tuple? || ty.Record? {
      var tys := if ty.Tuple? then ty.elems else ty.fields;
      var i :| 0 <= i < |tys| && tys[i] == f;
      PartSize(tys, i);
    }
  }

  /** The size a field is generated at: a slice of the budget if the field can come back
      to its owner. */
  function FieldSize(d: Decls, owner: Ty, f: Ty, size: I64, k: nat): I64 {
    if CanReach(d, f, owner) then SplitBudget(size, k) else size
  }

  /** A field of a chosen constructor is below its declared type: at the floor because the
      constructor is one of the shallowest, above it because the size drops or the type
      cannot come up again. */
  lemma CtorFieldBelow(cx: Context, ty: Ty, fields: seq<Ty>, f: Ty, size: I64, k: nat)
    requires Synthesised(cx) && ty in cx.world && ty.Adt? && ty !in cx.d.custom && ty in cx.d.ctors
    requires fields in cx.d.ctors[ty] && f in fields
    requires size <= 0 ==> CtorRank(cx.d, cx.ranks, fields) == RankOf(cx.d, cx.ranks, ty)
    ensures f in Children(cx.d, ty) && f in cx.world && Below(cx, f, FieldSize(cx.d, ty, f, size, k), ty, size)
  {
    var i :| 0 <= i < |cx.d.ctors[ty]| && cx.d.ctors[ty][i] == fields;
    var j :| 0 <= j < |fields| && fields[j] == f;
    InFlatten(cx.d.ctors[ty], i, j);
    SplitShrinks(size, k);
    if size <= 0 {
      WorldRanked(cx, ty);
      PartRank(cx.d, cx.ranks, fields, j);
      RankDrops(cx, f, ty);
    } else if !CanReach(cx.d, f, ty) {
      CanReachExact(cx.d, f, ty);
      ReachableShrinks(cx, ty, f);
    }
    WrapsOnce(cx, f, FieldSize(cx.d, ty, f, size, k), ty, size, k);
  }

  lemma RankDrops(cx: Context, f: Ty, ty: Ty)
    requires RankValue(cx, f) < RankValue(cx, ty) && TySize(f) < NESTING
    ensures Descent(cx, f) < Descent(cx, ty)
  {
  }

  // ----- generation -----

  datatype Drawn = Drawn(v: Value, seed: I64)
  datatype DrawnAll = DrawnAll(vs: seq<Value>, seed: I64)

  /** A number in `[0, bound]`, or 0. */
  function UpTo(random: Random, bound: I64, seed: I64): (r: (NonNegative, I64))
    ensures bound <= 0 ==> r.0 == 0
    ensures bound > 0 ==> r.0 <= bound
  {
    var (n, next) := random.draw(seed);
    if bound <= 0 then (0, next) else (TruncRem(n, Wrap(bound + 1)), next)
  }

  function CountRecursive(d: Decls, fields: seq<Ty>, owner: Ty): nat {
    if fields == [] then 0
    else (if CanReach(d, fields[0], owner) then 1 else 0) + CountRecursive(d, fields[1..], owner)
  }

  /** A tuple's parts share its size; the fields of a record or constructor may get a slice. */
  function SizeOf(d: Decls, owner: Ty, f: Ty, size: I64, k: nat): I64 {
    if owner.Tuple? then size else FieldSize(d, owner, f, size, k)
  }

  lemma StructuralBelow(cx: Context, ty: Ty, f: Ty, size: I64, k: nat)
    requires Synthesised(cx) && ty in cx.world && ty !in cx.d.custom && (ty.Tuple? || ty.Record?) &&
      f in Children(cx.d, ty)
    ensures Below(cx, f, SizeOf(cx.d, ty, f, size, k), ty, size)
  {
    PartBelow(cx, f, SizeOf(cx.d, ty, f, size, k), ty, size, k);
  }

  function Generate(cx: Context, ty: Ty, size: I64, seed: I64): (r: Drawn)
    requires Synthesised(cx) && ty in cx.world
    ensures HasType(cx.d, ty, r.v)
    decreases Wraps(cx, ty, size), Budget(size), Level(cx, ty, size), TySize(ty), 3, 0
  {
    if ty in cx.d.custom then var (b, next) := cx.random.leaf(ty, size, seed); Drawn(Leaf(ty, b), next)
    else match ty
      case Tuple(es) => GenerateParts(cx, ty, es, size, seed)
      case Record(fs) => GenerateParts(cx, ty, fs, size, seed)
      case List(e) => GenerateList(cx, ty, e, size, seed)
      case Array(e) => GenerateList(cx, ty, e, size, seed)
      case OptionOf(e) =>
        var (n, next) := cx.random.draw(seed);
        if size <= 0 || n % 4 == 0 then Drawn(NoneV, next)
        else
          PartBelow(cx, e, size, ty, size, 1);
          var r := Generate(cx, e, size, next);
          Drawn(SomeV(r.v), r.seed)
      case ResultOf(ok, err) =>
        var (n, next) := cx.random.draw(seed);
        if size > 0 && n % 4 == 0 then
          (PartBelow(cx, err, size, ty, size, 1);
           var r := Generate(cx, err, size, next);
           Drawn(ErrV(r.v), r.seed))
        else
          PartBelow(cx, ok, size, ty, size, 1);
          var r := Generate(cx, ok, size, next);
          Drawn(OkV(r.v), r.seed)
      case Adt(_, _) => GenerateAdt(cx, ty, size, seed)
      case _ => var (b, next) := cx.random.leaf(ty, size, seed); Drawn(Leaf(ty, b), next)
  }

  /** At the floor one of the shallowest constructors, above it any: a single choice is
      taken without a draw. */
  function GenerateAdt(cx: Context, ty: Ty, size: I64, seed: I64): (r: Drawn)
    requires Synthesised(cx) && ty in cx.world && ty.Adt? && ty !in cx.d.custom
    ensures HasType(cx.d, ty, r.v)
    decreases Wraps(cx, ty, size), Budget(size), Level(cx, ty, size), TySize(ty), 2, 1
  {
    RankedHasBase(cx.d, cx.ranks, cx.adts, ty);
    ChoicesAre(cx, ty, size);
    var tags := Choices(cx, ty, size);
    if |tags| == 1 then GenerateCtor(cx, ty, tags[0], size, seed)
    else
      var (n, next) := cx.random.draw(seed);
      GenerateCtor(cx, ty, tags[n % |tags|], size, next)
  }

  function Choices(cx: Context, ty: Ty, size: I64): seq<nat>
    requires ty in cx.d.ctors
  {
    if size <= 0 then BaseCtors(cx.d, cx.ranks, ty, 0) else seq(|cx.d.ctors[ty]|, i requires 0 <= i => i)
  }

  lemma ChoicesAre(cx: Context, ty: Ty, size: I64)
    requires ty in cx.d.ctors && BaseCtors(cx.d, cx.ranks, ty, 0) != []
    ensures var tags := Choices(cx, ty, size);
      && tags != [] && (forall i :: 0 <= i < |tags| ==> tags[i] < |cx.d.ctors[ty]|)
      && (size <= 0 ==> forall i :: 0 <= i < |tags| ==>
            CtorRank(cx.d, cx.ranks, cx.d.ctors[ty][tags[i]]) == RankOf(cx.d, cx.ranks, ty))
  {
    BaseCtorsAre(cx.d, cx.ranks, ty, 0);
    var base := BaseCtors(cx.d, cx.ranks, ty, 0);
    assert base[0] in base;
    assert forall i :: 0 <= i < |base| ==> base[i] in base;
  }

  function GenerateParts(cx: Context, ty: Ty, parts: seq<Ty>, size: I64, seed: I64): (r: Drawn)
    requires Synthesised(cx) && ty in cx.world && ty !in cx.d.custom
    requires (ty.Tuple? && ty.elems == parts) || (ty.Record? && ty.fields == parts)
    ensures HasType(cx.d, ty, r.v)
    decreases Wraps(cx, ty, size), Budget(size), Level(cx, ty, size), TySize(ty), 2, 0
  {
    var k := CountRecursive(cx.d, parts, ty);
    forall f | f in parts ensures f in cx.world && Below(cx, f, SizeOf(cx.d, ty, f, size, k), ty, size) {
      StructuralBelow(cx, ty, f, size, k);
    }
    var r := GenerateFields(cx, ty, parts, size, k, seed);
    Drawn(Fields(r.vs), r.seed)
  }

  /** A constructor's fields in order, the seed threaded through. */
  function GenerateCtor(cx: Context, ty: Ty, tag: nat, size: I64, seed: I64): (r: Drawn)
    requires Synthesised(cx) && ty in cx.world && ty.Adt? && ty !in cx.d.custom && ty in cx.d.ctors &&
      tag < |cx.d.ctors[ty]|
    requires size <= 0 ==> CtorRank(cx.d, cx.ranks, cx.d.ctors[ty][tag]) == RankOf(cx.d, cx.ranks, ty)
    ensures HasType(cx.d, ty, r.v)
    decreases Wraps(cx, ty, size), Budget(size), Level(cx, ty, size), TySize(ty), 2, 0
  {
    var fields := cx.d.ctors[ty][tag];
    var k := CountRecursive(cx.d, fields, ty);
    forall f | f in fields ensures f in cx.world && Below(cx, f, SizeOf(cx.d, ty, f, size, k), ty, size) {
      CtorFieldBelow(cx, ty, fields, f, size, k);
    }
    var r := GenerateFields(cx, ty, fields, size, k, seed);
    Drawn(CtorV(ty, tag, r.vs), r.seed)
  }

  function GenerateFields(cx: Context, ty: Ty, fields: seq<Ty>, size: I64, k: nat, seed: I64): (r: DrawnAll)
    requires Synthesised(cx)
    requires forall f :: f in fields ==> f in cx.world && Below(cx, f, SizeOf(cx.d, ty, f, size, k), ty, size)
    ensures HaveTypes(cx.d, fields, r.vs)
    decreases Wraps(cx, ty, size), Budget(size), Level(cx, ty, size), TySize(ty), 1, |fields|
  {
    if fields == [] then DrawnAll([], seed)
    else
      var f := fields[0];
      assert Below(cx, f, SizeOf(cx.d, ty, f, size, k), ty, size);
      var first := GenerateField(cx, f, SizeOf(cx.d, ty, f, size, k), !ty.Tuple? && CanReach(cx.d, f, ty), seed);
      var rest := GenerateFields(cx, ty, fields[1..], size, k, first.seed);
      DrawnAll([first.v] + rest.vs, rest.seed)
  }

  /** A sequence that can come back to its owner shares its slice among its elements. */
  function GenerateField(cx: Context, f: Ty, size: I64, recursive: bool, seed: I64): (r: Drawn)
    requires Synthesised(cx) && f in cx.world
    ensures HasType(cx.d, f, r.v)
    decreases Wraps(cx, f, size), Budget(size), Level(cx, f, size), TySize(f), 4, 0
  {
    if recursive && (f.List? || f.Array?) && f !in cx.d.custom then
      var (n, next) := UpTo(cx.random, size, seed);
      assert f.elem in Children(cx.d, f);
      if n == 0 then Drawn(Sequence([]), next)
      else
        Slice(cx, f.elem, size, n);
        var r := GenerateMany(cx, f.elem, TruncDiv(size, Wrap(n + 1)), n, next);
        Drawn(Sequence(r.vs), r.seed)
    else Generate(cx, f, size, seed)
  }

  /** The divisor wraps when the list is as long as it can be, and the slice is then 0. */
  lemma Slice(cx: Context, e: Ty, size: I64, n: I64)
    requires Synthesised(cx) && e in cx.world && 0 < n <= size
    ensures Wrap(n + 1) != 0 && 0 <= TruncDiv(size, Wrap(n + 1)) < size &&
      Wraps(cx, e, TruncDiv(size, Wrap(n + 1))) == 0
  {
    assert n < I64_MAX ==> Wrap(n + 1) == n + 1;
    assert n == I64_MAX ==> Wrap(n + 1) == I64_MIN;
    assert Descent(cx, e) <= RANK_MAX * NESTING + NESTING;
  }

  /** At the floor a list is empty; above it the elements get the list's own size. */
  function GenerateList(cx: Context, ty: Ty, e: Ty, size: I64, seed: I64): (r: Drawn)
    requires Synthesised(cx) && ty in cx.world && ty !in cx.d.custom && (ty.List? || ty.Array?) && ty.elem == e
    ensures HasType(cx.d, ty, r.v)
    decreases Wraps(cx, ty, size), Budget(size), Level(cx, ty, size), TySize(ty), 2, 0
  {
    var (n, next) := UpTo(cx.random, size, seed);
    assert e in Children(cx.d, ty);
    if n == 0 then Drawn(Sequence([]), next)
    else
      PartBelow(cx, e, size, ty, size, 1);
      var r := GenerateMany(cx, e, size, n, next);
      Drawn(Sequence(r.vs), r.seed)
  }

  function GenerateMany(cx: Context, e: Ty, size: I64, n: nat, seed: I64): (r: DrawnAll)
    requires Synthesised(cx) && e in cx.world
    ensures AllHaveType(cx.d, e, r.vs) && |r.vs| == n
    decreases Wraps(cx, e, size), Budget(size), Level(cx, e, size), TySize(e), 5, n
  {
    if n == 0 then DrawnAll([], seed)
    else
      var first := Generate(cx, e, size, seed);
      var rest := GenerateMany(cx, e, size, n - 1, first.seed);
      DrawnAll([first.v] + rest.vs, rest.seed)
  }
}
