/** What each draw chooses: the constructor, branch or length a generator builds is decided by
    its draw, and every one the size allows is chosen by some draw. */
module GeneratorChoices {
  import opened Machine
  import opened GeneratorTypes
  import opened GeneratorRanks
  import opened GeneratorRuns
  import opened Sequences

  // ----- exact arithmetic -----

  /** Truncating division by a positive number, by what it leaves over. */
  lemma TruncDivExact(a: I64, b: I64)
    requires b > 0
    ensures var q := TruncDiv(a, b);
      Abs(q) * b <= Abs(a) < (Abs(q) + 1) * b && (a >= 0 ==> q >= 0) && (a <= 0 ==> q <= 0)
  {
    var magnitude := Abs(a) / b;
    assert Abs(a) == b * magnitude + Abs(a) % b;
    assert b * magnitude == magnitude * b && (magnitude + 1) * b == magnitude * b + b;
    QuotientBound(Abs(a), b);
  }

  /** What is left of a size after the node: one less, except that the least size wraps. */
  function Rest(size: I64): I64 {
    if size == I64_MIN then I64_MAX else size - 1
  }

  /** Each of `k` recursive fields gets the rest divided by `k`, truncated. */
  lemma SplitExact(size: I64, k: nat)
    ensures k <= 1 ==> SplitBudget(size, k) == Rest(size)
    ensures 1 < k <= I64_MAX ==> var q := SplitBudget(size, k);
      && Abs(q) * k <= Abs(Rest(size)) < (Abs(q) + 1) * k
      && (Rest(size) >= 0 ==> q >= 0) && (Rest(size) <= 0 ==> q <= 0)
  {
    assert Wrap(size - 1) == Rest(size);
    if 1 < k <= I64_MAX { TruncDivExact(Rest(size), k); }
  }

  /** The length drawn for a sequence is the draw modulo one more than the size. */
  lemma UpToExact(random: Random, bound: I64, seed: I64)
    ensures UpTo(random, bound, seed) ==
      (if bound <= 0 then 0 else random.draw(seed).0 % (bound + 1), random.draw(seed).1)
  {
    var n := random.draw(seed).0;
    if bound > 0 {
      RemNonNegative(n, Wrap(bound + 1));
      if bound == I64_MAX {
        assert Wrap(bound + 1) == I64_MIN;
        SmallRemainder(n, bound + 1);
      }
    }
  }

  lemma RemNonNegative(a: I64, b: I64)
    requires a >= 0 && b != 0
    ensures TruncRem(a, b) == a % Abs(b)
  {
  }

  lemma SmallRemainder(a: nat, b: nat)
    requires a < b
    ensures a % b == a
  {
  }

  // ----- declared types -----

  /** The constructors a size allows, in order: at the floor those of the type's own rank, above it all. */
  ghost predicate Allowed(cx: Context, ty: Ty, size: I64, tags: seq<nat>) {
    && ty in cx.d.ctors && Ascending(tags)
    && (forall c: nat :: c in tags <==>
          && c < |cx.d.ctors[ty]|
          && (size > 0 || CtorRank(cx.d, cx.ranks, cx.d.ctors[ty][c]) == RankOf(cx.d, cx.ranks, ty)))
  }

  lemma {:induction false} BaseCtorsAscend(d: Decls, ranks: Ranks, ty: Ty, i: nat)
    requires ty in d.ctors && i <= |d.ctors[ty]|
    ensures Ascending(BaseCtors(d, ranks, ty, i))
    decreases |d.ctors[ty]| - i
  {
    if i < |d.ctors[ty]| {
      var rest := BaseCtors(d, ranks, ty, i + 1);
      BaseCtorsAscend(d, ranks, ty, i + 1);
      BaseCtorsAre(d, ranks, ty, i + 1);
      Prepended(i, rest);
    }
  }

  lemma ChoicesAllowed(cx: Context, ty: Ty, size: I64)
    requires ty in cx.d.ctors
    ensures Allowed(cx, ty, size, Choices(cx, ty, size))
  {
    var tags := Choices(cx, ty, size);
    if size <= 0 {
      BaseCtorsAre(cx.d, cx.ranks, ty, 0);
      BaseCtorsAscend(cx.d, cx.ranks, ty, 0);
    } else {
      forall c: nat | c < |cx.d.ctors[ty]| ensures c in tags { assert tags[c] == c; }
    }
  }

  /** A declared type is generated with the allowed constructor whose number is the draw modulo
      their count, each field at the size its constructor gives it. */
  lemma ConstructorChosen(cx: Context, ty: Ty, size: I64, seed: I64) returns (tags: seq<nat>)
    requires Synthesised(cx) && ty in cx.world && ty.Adt? && ty !in cx.d.custom
    ensures tags != [] && Allowed(cx, ty, size, tags)
    ensures var v := Generate(cx, ty, size, seed).v;
      && v.CtorV? && v.ctor == tags[cx.random.draw(seed).0 % |tags|]
      && GeneratedParts(cx, ty, cx.d.ctors[ty][v.ctor], size, v.vals)
  {
    RankedHasBase(cx.d, cx.ranks, cx.adts, ty);
    ChoicesAre(cx, ty, size);
    ChoicesAllowed(cx, ty, size);
    tags := Choices(cx, ty, size);
    var (n, next) := cx.random.draw(seed);
    hide Choices, Allowed, HasType, HaveTypes, Synthesised, GenerateFields, Settled, Closed, CtorRank, RankOf;
    CtorParts(cx, ty, tags[n % |tags|], size, if |tags| == 1 then seed else next);
  }

  /** The value is generated for one of the owner's parts: at the owner's size, or at a slice of
      it if the part can come back to a record or declared type. */
  ghost predicate Made(cx: Context, owner: Ty, f: Ty, size: I64, k: nat, seed: I64, v: Value) {
    && Synthesised(cx) && f in cx.world
    && v == GenerateField(cx, f, SizeOf(cx.d, owner, f, size, k), !owner.Tuple? && CanReach(cx.d, f, owner), seed).v
  }

  ghost predicate MadeBySome(cx: Context, owner: Ty, f: Ty, size: I64, k: nat, v: Value) {
    exists seed :: Made(cx, owner, f, size, k, seed, v)
  }

  /** Each part is generated for its type. */
  ghost predicate GeneratedParts(cx: Context, owner: Ty, parts: seq<Ty>, size: I64, vals: seq<Value>) {
    |vals| == |parts| && forall i :: 0 <= i < |parts| ==>
      MadeBySome(cx, owner, parts[i], size, CountRecursive(cx.d, parts, owner), vals[i])
  }

  lemma CtorParts(cx: Context, ty: Ty, tag: nat, size: I64, seed: I64)
    requires Synthesised(cx) && ty in cx.world && ty.Adt? && ty !in cx.d.custom && ty in cx.d.ctors
    requires tag < |cx.d.ctors[ty]|
    requires size <= 0 ==> CtorRank(cx.d, cx.ranks, cx.d.ctors[ty][tag]) == RankOf(cx.d, cx.ranks, ty)
    ensures var v := GenerateCtor(cx, ty, tag, size, seed).v;
      v.CtorV? && v.ctor == tag && GeneratedParts(cx, ty, cx.d.ctors[ty][tag], size, v.vals)
  {
    var fields := cx.d.ctors[ty][tag];
    var k := CountRecursive(cx.d, fields, ty);
    forall f | f in fields ensures f in cx.world && Below(cx, f, SizeOf(cx.d, ty, f, size, k), ty, size) {
      CtorFieldBelow(cx, ty, fields, f, size, k);
    }
    FieldsMade(cx, ty, fields, size, k, seed);
  }

  /** A tuple or record is generated part by part. */
  lemma PartsGenerated(cx: Context, ty: Ty, size: I64, seed: I64)
    requires Synthesised(cx) && ty in cx.world && (ty.Tuple? || ty.Record?) && ty !in cx.d.custom
    ensures var v := Generate(cx, ty, size, seed).v;
      v.Fields? && GeneratedParts(cx, ty, if ty.Tuple? then ty.elems else ty.fields, size, v.vals)
  {
    var parts := if ty.Tuple? then ty.elems else ty.fields;
    var k := CountRecursive(cx.d, parts, ty);
    forall f | f in parts ensures f in cx.world && Below(cx, f, SizeOf(cx.d, ty, f, size, k), ty, size) {
      StructuralBelow(cx, ty, f, size, k);
    }
    FieldsMade(cx, ty, parts, size, k, seed);
  }

  lemma {:induction false} FieldsMade(cx: Context, ty: Ty, fields: seq<Ty>, size: I64, k: nat, seed: I64)
    requires Synthesised(cx)
    requires forall f :: f in fields ==> f in cx.world && Below(cx, f, SizeOf(cx.d, ty, f, size, k), ty, size)
    ensures var vs := GenerateFields(cx, ty, fields, size, k, seed).vs;
      |vs| == |fields| && forall i :: 0 <= i < |fields| ==> MadeBySome(cx, ty, fields[i], size, k, vs[i])
    decreases |fields|
  {
    hide Synthesised, Below, SizeOf, GenerateField, HaveTypes;
    if fields != [] {
      var f := fields[0];
      var first := GenerateField(cx, f, SizeOf(cx.d, ty, f, size, k), !ty.Tuple? && CanReach(cx.d, f, ty), seed);
      FieldsMade(cx, ty, fields[1..], size, k, first.seed);
      assert Made(cx, ty, f, size, k, seed, first.v);
    }
  }

  /** The same context, drawing `n` whatever the seed. */
  function Drawing(cx: Context, n: NonNegative): Context {
    cx.(random := Random((seed: I64) => (n, seed), cx.random.leaf))
  }

  lemma DrawingSynthesised(cx: Context, n: NonNegative)
    requires Synthesised(cx)
    ensures Synthesised(Drawing(cx, n))
  {
  }

  /** The constructor a declared type is generated with, if it is one. */
  ghost predicate Builds(cx: Context, ty: Ty, size: I64, seed: I64, c: nat) {
    Synthesised(cx) && ty in cx.world &&
    var v := Generate(cx, ty, size, seed).v;
    v.CtorV? && v.ctor == c
  }

  /** Every allowed constructor is chosen by some draw. */
  lemma EveryConstructor(cx: Context, ty: Ty, size: I64, seed: I64, c: nat)
    requires Synthesised(cx) && ty in cx.world && ty.Adt? && ty !in cx.d.custom && ty in cx.d.ctors
    requires c < |cx.d.ctors[ty]| <= I64_MAX
    requires size <= 0 ==> CtorRank(cx.d, cx.ranks, cx.d.ctors[ty][c]) == RankOf(cx.d, cx.ranks, ty)
    ensures exists n :: Builds(Drawing(cx, n), ty, size, seed, c)
  {
    ChoicesAllowed(cx, ty, size);
    var tags := Choices(cx, ty, size);
    assert c in tags;
    var j :| 0 <= j < |tags| && tags[j] == c;
    AscendingIndex(tags, j);
    DrawingSynthesised(cx, j);
    var chosen := ConstructorChosen(Drawing(cx, j), ty, size, seed);
    AscendingUnique(tags, chosen);
    SmallRemainder(j, |tags|);
    assert Builds(Drawing(cx, j), ty, size, seed, c);
  }

  // ----- branches and lengths -----

  /** One draw in four is `None` above the floor, and every one at the floor. */
  lemma OptionChosen(cx: Context, ty: Ty, size: I64, seed: I64)
    requires Synthesised(cx) && ty in cx.world && ty.OptionOf? && ty !in cx.d.custom
    ensures var n, v := cx.random.draw(seed).0, Generate(cx, ty, size, seed).v;
      && (v.NoneV? <==> size <= 0 || n % 4 == 0)
      && (v.SomeV? ==> ty.elem in cx.world && v.v == Generate(cx, ty.elem, size, cx.random.draw(seed).1).v)
  {
    assert ty.elem in Children(cx.d, ty);
  }

  /** One draw in four is an error above the floor, and none at the floor. */
  lemma ResultChosen(cx: Context, ty: Ty, size: I64, seed: I64)
    requires Synthesised(cx) && ty in cx.world && ty.ResultOf? && ty !in cx.d.custom
    ensures var n, v := cx.random.draw(seed).0, Generate(cx, ty, size, seed).v;
      && (v.ErrV? <==> size > 0 && n % 4 == 0)
      && ty.ok in cx.world && ty.err in cx.world
      && (v.ErrV? ==> v.v == Generate(cx, ty.err, size, cx.random.draw(seed).1).v)
      && (v.OkV? ==> v.v == Generate(cx, ty.ok, size, cx.random.draw(seed).1).v)
  {
    assert ty.ok in Children(cx.d, ty) && ty.err in Children(cx.d, ty);
  }

  /** The value is generated for the element type at this size. */
  ghost predicate Element(cx: Context, e: Ty, size: I64, seed: I64, v: Value) {
    Synthesised(cx) && e in cx.world && v == Generate(cx, e, size, seed).v
  }

  /** So many elements, all generated at this size. */
  ghost predicate Elements(cx: Context, e: Ty, size: I64, vals: seq<Value>) {
    forall i :: 0 <= i < |vals| ==> IsElement(cx, e, size, vals[i])
  }

  ghost predicate IsElement(cx: Context, e: Ty, size: I64, v: Value) {
    exists seed :: Element(cx, e, size, seed, v)
  }

  lemma {:induction false} ManyMade(cx: Context, e: Ty, size: I64, n: nat, seed: I64)
    requires Synthesised(cx) && e in cx.world
    ensures Elements(cx, e, size, GenerateMany(cx, e, size, n, seed).vs)
    decreases n
  {
    hide Synthesised, Generate, HasType, AllHaveType;
    if n > 0 {
      var first := Generate(cx, e, size, seed);
      ManyMade(cx, e, size, n - 1, first.seed);
      assert Element(cx, e, size, seed, first.v);
      var rest := GenerateMany(cx, e, size, n - 1, first.seed);
      assert GenerateMany(cx, e, size, n, seed).vs == [first.v] + rest.vs;
    }
  }

  /** A sequence has as many elements as the draw modulo one more than the size, each generated
      at the size itself; at the floor it is empty. */
  lemma LengthChosen(cx: Context, ty: Ty, size: I64, seed: I64)
    requires Synthesised(cx) && ty in cx.world && (ty.List? || ty.Array?) && ty !in cx.d.custom
    ensures var n, v := cx.random.draw(seed).0, Generate(cx, ty, size, seed).v;
      v.Sequence? && |v.vals| == (if size <= 0 then 0 else n % (size + 1)) && Elements(cx, ty.elem, size, v.vals)
  {
    hide HasType, AllHaveType;
    UpToExact(cx.random, size, seed);
    var (n, next) := UpTo(cx.random, size, seed);
    assert ty.elem in Children(cx.d, ty);
    ManyMade(cx, ty.elem, size, n, next);
  }

  /** A sequence that can come back to its owner has as many, each generated at the size divided
      by one more than their number. */
  lemma SharedLengthChosen(cx: Context, f: Ty, size: I64, seed: I64)
    requires Synthesised(cx) && f in cx.world && (f.List? || f.Array?) && f !in cx.d.custom
    ensures var n, v := cx.random.draw(seed).0, GenerateField(cx, f, size, true, seed).v;
      && v.Sequence? && |v.vals| == (if size <= 0 then 0 else n % (size + 1))
      && Elements(cx, f.elem, if size <= 0 then 0 else size / (|v.vals| + 1), v.vals)
  {
    hide HasType, AllHaveType;
    UpToExact(cx.random, size, seed);
    var (n, next) := UpTo(cx.random, size, seed);
    assert f.elem in Children(cx.d, f);
    if n > 0 {
      Slice(cx, f.elem, size, n);
      ShareExact(size, n);
      ManyMade(cx, f.elem, TruncDiv(size, Wrap(n + 1)), n, next);
    }
  }

  lemma ShareExact(size: I64, n: I64)
    requires 0 < n <= size
    ensures Wrap(n + 1) != 0 && TruncDiv(size, Wrap(n + 1)) == size / (n + 1)
  {
    if n < I64_MAX {
      assert Wrap(n + 1) == n + 1;
      QuotientBound(size, n + 1);
    } else {
      assert Wrap(n + 1) == I64_MIN;
      assert Abs(I64_MIN) == n + 1;
    }
  }

  /** How many elements are generated. */
  ghost predicate HasLength(cx: Context, ty: Ty, size: I64, seed: I64, length: nat) {
    Synthesised(cx) && ty in cx.world &&
    var v := Generate(cx, ty, size, seed).v;
    v.Sequence? && |v.vals| == length
  }

  /** Every length from 0 to the size is chosen by some draw. */
  lemma EveryLength(cx: Context, ty: Ty, size: I64, seed: I64, length: I64)
    requires Synthesised(cx) && ty in cx.world && (ty.List? || ty.Array?) && ty !in cx.d.custom
    requires 0 <= length <= (if size > 0 then size else 0)
    ensures exists n :: HasLength(Drawing(cx, n), ty, size, seed, length)
  {
    DrawingSynthesised(cx, length);
    LengthChosen(Drawing(cx, length), ty, size, seed);
    if size > 0 { SmallRemainder(length, size + 1); }
    assert HasLength(Drawing(cx, length), ty, size, seed, length);
  }
}
