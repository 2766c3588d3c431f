/** The depth of the smallest finite value of every type, as a least fixpoint. */
module GeneratorRanks {
  import opened Machine
  import opened Sets
  import opened GeneratorTypes

  type Ranks = map<Ty, nat>

  // ----- ranks from the ranks found so far -----

  /** Primitives, sequences and options ground at once, a result through its `Ok` side. */
  function RankOf(d: Decls, ranks: Ranks, ty: Ty): Option<nat>
    decreases ty, 0
  {
    if ty in d.custom then Some(0)
    else match ty
      case Unit => Some(0)
      case Con(_) => Some(0)
      case Tuple(es) => MaxRank(d, ranks, es)
      case Record(fs) => MaxRank(d, ranks, fs)
      case List(_) => Some(0)
      case Array(_) => Some(0)
      case OptionOf(_) => Some(0)
      case TextPairs => Some(0)
      case ResultOf(ok, _) => RankOf(d, ranks, ok)
      case Adt(_, _) => if ty in ranks then Some(ranks[ty]) else None
      case Other(_) => None
  }

  function MaxRank(d: Decls, ranks: Ranks, tys: seq<Ty>): Option<nat>
    decreases tys, 1
  {
    if tys == [] then Some(0)
    else
      var first := RankOf(d, ranks, tys[0]);
      var rest := MaxRank(d, ranks, tys[1..]);
      if first.Some? && rest.Some? then Some(Max(first.value, rest.value)) else None
  }

  function CtorRank(d: Decls, ranks: Ranks, fields: seq<Ty>): Option<nat> {
    var worst := MaxRank(d, ranks, fields);
    if worst.Some? then Some(worst.value + 1) else None
  }

  function Shallower(a: Option<nat>, b: Option<nat>): Option<nat> {
    if a.None? then b else if b.None? then a else if a.value <= b.value then a else b
  }

  /** The shallowest constructor under the current ranks. */
  function MinCostOf(d: Decls, ranks: Ranks, ctors: seq<seq<Ty>>): Option<nat> {
    if ctors == [] then None
    else Shallower(CtorRank(d, ranks, ctors[0]), MinCostOf(d, ranks, ctors[1..]))
  }

  function MinCost(d: Decls, ranks: Ranks, ty: Ty): Option<nat> {
    if ty in d.ctors then MinCostOf(d, ranks, d.ctors[ty]) else None
  }

  lemma {:induction false} MinCostIsMin(d: Decls, ranks: Ranks, ctors: seq<seq<Ty>>)
    ensures var cost := MinCostOf(d, ranks, ctors);
      && (cost.Some? ==> exists i :: 0 <= i < |ctors| && CtorRank(d, ranks, ctors[i]) == cost)
      && forall i :: 0 <= i < |ctors| && CtorRank(d, ranks, ctors[i]).Some? ==>
           cost.Some? && cost.value <= CtorRank(d, ranks, ctors[i]).value
  {
    if ctors != [] {
      MinCostIsMin(d, ranks, ctors[1..]);
      var cost := MinCostOf(d, ranks, ctors);
      if cost.Some? && CtorRank(d, ranks, ctors[0]) != cost {
        var i :| 0 <= i < |ctors[1..]| && CtorRank(d, ranks, ctors[1..][i]) == cost;
        assert ctors[1..][i] == ctors[i + 1];
      }
      assert forall i :: 0 < i < |ctors| ==> ctors[i] == ctors[1..][i - 1];
    }
  }

  // ----- finite values, independently of any ranking -----

  /** The skeleton of a value that stops as soon as the type allows. */
  datatype Finite = Ground | Parts(parts: seq<Finite>) | Built(ctor: nat, parts: seq<Finite>) | OkSide(value: Finite)

  predicate IsOf(d: Decls, ty: Ty, w: Finite)
    decreases w, 0
  {
    if ty in d.custom then w.Ground?
    else match ty
      case Unit => w.Ground?
      case Con(_) => w.Ground?
      case List(_) => w.Ground?
      case Array(_) => w.Ground?
      case OptionOf(_) => w.Ground?
      case TextPairs => w.Ground?
      case Tuple(es) => w.Parts? && AreOf(d, es, w.parts)
      case Record(fs) => w.Parts? && AreOf(d, fs, w.parts)
      case ResultOf(ok, _) => w.OkSide? && IsOf(d, ok, w.value)
      case Adt(_, _) => w.Built? && ty in d.ctors && w.ctor < |d.ctors[ty]| && AreOf(d, d.ctors[ty][w.ctor], w.parts)
      case Other(_) => false
  }

  predicate AreOf(d: Decls, tys: seq<Ty>, ws: seq<Finite>)
    decreases ws, 1
  {
    |tys| == |ws| && (ws == [] || (IsOf(d, tys[0], ws[0]) && AreOf(d, tys[1..], ws[1..])))
  }

  /** Constructors on the deepest path. */
  function Depth(w: Finite): nat
    decreases w, 0
  {
    match w
    case Ground => 0
    case Parts(ps) => MaxDepth(ps)
    case Built(_, ps) => MaxDepth(ps) + 1
    case OkSide(v) => Depth(v)
  }

  function MaxDepth(ws: seq<Finite>): nat
    decreases ws, 1
  {
    if ws == [] then 0 else Max(Depth(ws[0]), MaxDepth(ws[1..]))
  }

  /** The least depth of any finite value of the type. */
  ghost predicate LeastDepth(d: Decls, ty: Ty, depth: nat) {
    (exists w :: IsOf(d, ty, w) && Depth(w) == depth) && forall w :: IsOf(d, ty, w) ==> depth <= Depth(w)
  }

  // ----- invariants of the relaxation -----

  /** Every rank is met by some finite value. */
  ghost predicate Realised(d: Decls, ranks: Ranks) {
    forall t :: t in ranks ==> t.Adt? && t !in d.custom && exists w :: IsOf(d, t, w) && Depth(w) <= ranks[t]
  }

  /** Every rank was computed from ranks that have only shrunk since. */
  ghost predicate Supported(d: Decls, ranks: Ranks) {
    forall t :: t in ranks ==> MinCost(d, ranks, t).Some? && MinCost(d, ranks, t).value <= ranks[t]
  }

  ghost predicate Lowered(a: Ranks, b: Ranks) {
    forall t :: t in a ==> t in b && b[t] <= a[t]
  }

  /** No type can be improved. */
  ghost predicate Stable(d: Decls, ranks: Ranks, adts: set<Ty>) {
    forall t :: t in adts && MinCost(d, ranks, t).Some? ==> t in ranks && ranks[t] <= MinCost(d, ranks, t).value
  }

  lemma {:induction false} RankMonotone(d: Decls, a: Ranks, b: Ranks, ty: Ty)
    requires Lowered(a, b) && RankOf(d, a, ty).Some?
    ensures RankOf(d, b, ty).Some? && RankOf(d, b, ty).value <= RankOf(d, a, ty).value
    decreases ty, 0
  {
    match ty
    case Tuple(es) => if ty !in d.custom { MaxMonotone(d, a, b, es); }
    case Record(fs) => if ty !in d.custom { MaxMonotone(d, a, b, fs); }
    case ResultOf(ok, _) => if ty !in d.custom { RankMonotone(d, a, b, ok); }
    case _ =>
  }

  lemma {:induction false} MaxMonotone(d: Decls, a: Ranks, b: Ranks, tys: seq<Ty>)
    requires Lowered(a, b) && MaxRank(d, a, tys).Some?
    ensures MaxRank(d, b, tys).Some? && MaxRank(d, b, tys).value <= MaxRank(d, a, tys).value
    decreases tys, 1
  {
    if tys != [] {
      RankMonotone(d, a, b, tys[0]);
      MaxMonotone(d, a, b, tys[1..]);
    }
  }

  lemma {:induction false} CostMonotone(d: Decls, a: Ranks, b: Ranks, ctors: seq<seq<Ty>>)
    requires Lowered(a, b) && MinCostOf(d, a, ctors).Some?
    ensures MinCostOf(d, b, ctors).Some? && MinCostOf(d, b, ctors).value <= MinCostOf(d, a, ctors).value
  {
    if CtorRank(d, a, ctors[0]).Some? { MaxMonotone(d, a, b, ctors[0]); }
    if MinCostOf(d, a, ctors[1..]).Some? { CostMonotone(d, a, b, ctors[1..]); }
  }

  lemma {:induction false} RankRealised(d: Decls, ranks: Ranks, ty: Ty) returns (w: Finite)
    requires Realised(d, ranks) && RankOf(d, ranks, ty).Some?
    ensures IsOf(d, ty, w) && Depth(w) <= RankOf(d, ranks, ty).value
    decreases ty, 0
  {
    w := Ground;
    if ty !in d.custom {
      match ty
      case Tuple(es) => var ws := MaxRealised(d, ranks, es); w := Parts(ws);
      case Record(fs) => var ws := MaxRealised(d, ranks, fs); w := Parts(ws);
      case ResultOf(ok, _) => var v := RankRealised(d, ranks, ok); w := OkSide(v);
      case Adt(_, _) => w :| IsOf(d, ty, w) && Depth(w) <= ranks[ty];
      case _ =>
    }
  }

  lemma {:induction false} MaxRealised(d: Decls, ranks: Ranks, tys: seq<Ty>) returns (ws: seq<Finite>)
    requires Realised(d, ranks) && MaxRank(d, ranks, tys).Some?
    ensures AreOf(d, tys, ws) && MaxDepth(ws) <= MaxRank(d, ranks, tys).value
    decreases tys, 1
  {
    if tys == [] {
      ws := [];
    } else {
      var w := RankRealised(d, ranks, tys[0]);
      var rest := MaxRealised(d, ranks, tys[1..]);
      ws := [w] + rest;
    }
  }

  /** One improvement keeps both invariants. */
  lemma Improve(d: Decls, ranks: Ranks, t: Ty)
    requires Realised(d, ranks) && Supported(d, ranks) && t.Adt? && t !in d.custom
    requires MinCost(d, ranks, t).Some? && (t in ranks ==> MinCost(d, ranks, t).value < ranks[t])
    ensures var r := ranks[t := MinCost(d, ranks, t).value];
      Realised(d, r) && Supported(d, r) && Lowered(ranks, r)
  {
    var r := ranks[t := MinCost(d, ranks, t).value];
    forall u | u in r ensures MinCost(d, r, u).Some? && MinCost(d, r, u).value <= r[u] {
      CostMonotone(d, ranks, r, d.ctors[u]);
    }
    MinCostIsMin(d, ranks, d.ctors[t]);
    var i :| 0 <= i < |d.ctors[t]| && CtorRank(d, ranks, d.ctors[t][i]) == MinCost(d, ranks, t);
    var ws := MaxRealised(d, ranks, d.ctors[t][i]);
    assert IsOf(d, t, Built(i, ws)) && Depth(Built(i, ws)) <= r[t];
  }

  // ----- the fixpoint is exact -----

  /** The declared types in `ty`, and in the fields of `adts`, are all in `adts`. */
  ghost predicate Closed(d: Decls, adts: set<Ty>) {
    Searched(d, None, adts, adts)
  }

  /** At a fixpoint no finite value is shallower than the rank. */
  lemma {:induction false} RankIsLeast(d: Decls, ranks: Ranks, adts: set<Ty>, ty: Ty, w: Finite)
    requires Stable(d, ranks, adts) && Closed(d, adts) && Clean(d, None, ty, adts) && IsOf(d, ty, w)
    ensures RankOf(d, ranks, ty).Some? && RankOf(d, ranks, ty).value <= Depth(w)
    decreases w, 0
  {
    if ty !in d.custom {
      match ty
      case Tuple(es) => RanksAreLeast(d, ranks, adts, es, w.parts);
      case Record(fs) => RanksAreLeast(d, ranks, adts, fs, w.parts);
      case ResultOf(ok, _) => RankIsLeast(d, ranks, adts, ok, w.value);
      case Adt(_, _) =>
        var fields := d.ctors[ty][w.ctor];
        forall j | 0 <= j < |fields| ensures Clean(d, None, fields[j], adts) {
          InFlatten(d.ctors[ty], w.ctor, j);
        }
        RanksAreLeast(d, ranks, adts, fields, w.parts);
        MinCostIsMin(d, ranks, d.ctors[ty]);
        assert CtorRank(d, ranks, d.ctors[ty][w.ctor]).Some?;
      case _ =>
    }
  }

  lemma {:induction false} RanksAreLeast(d: Decls, ranks: Ranks, adts: set<Ty>, tys: seq<Ty>, ws: seq<Finite>)
    requires Stable(d, ranks, adts) && Closed(d, adts) && CleanAll(d, None, tys, adts) && AreOf(d, tys, ws)
    ensures MaxRank(d, ranks, tys).Some? && MaxRank(d, ranks, tys).value <= MaxDepth(ws)
    decreases ws, 1
  {
    if ws != [] {
      RankIsLeast(d, ranks, adts, tys[0], ws[0]);
      RanksAreLeast(d, ranks, adts, tys[1..], ws[1..]);
    }
  }

  /** What the relaxation ends with. */
  ghost predicate Settled(d: Decls, ranks: Ranks, adts: set<Ty>) {
    && Realised(d, ranks) && Supported(d, ranks) && Stable(d, ranks, adts) && ranks.Keys <= adts
    && forall t :: t in adts ==> t.Adt? && t !in d.custom
  }

  /** The rank of a type is the least depth of a finite value of it, and there is none
      exactly when the type has no finite value. */
  lemma RankExact(d: Decls, ranks: Ranks, adts: set<Ty>, ty: Ty)
    requires Settled(d, ranks, adts) && Closed(d, adts) && Clean(d, None, ty, adts)
    ensures RankOf(d, ranks, ty).Some? <==> exists w :: IsOf(d, ty, w)
    ensures RankOf(d, ranks, ty).Some? ==> LeastDepth(d, ty, RankOf(d, ranks, ty).value)
  {
    forall w | IsOf(d, ty, w) ensures RankOf(d, ranks, ty).Some? && RankOf(d, ranks, ty).value <= Depth(w) {
      RankIsLeast(d, ranks, adts, ty, w);
    }
    if RankOf(d, ranks, ty).Some? {
      var w := RankRealised(d, ranks, ty);
      assert IsOf(d, ty, w);
      assert exists u :: IsOf(d, ty, u);
    } else {
      assert forall u :: !IsOf(d, ty, u);
    }
  }

  /** Whatever the order of relaxation, the result is the same. */
  lemma OrderIrrelevant(d: Decls, a: Ranks, b: Ranks, adts: set<Ty>)
    requires Settled(d, a, adts) && Settled(d, b, adts) && Closed(d, adts)
    ensures a == b
  {
    hide Settled, Closed, IsOf, LeastDepth;
    assert a.Keys <= adts && b.Keys <= adts by { SettledKeys(d, a, adts); SettledKeys(d, b, adts); }
    forall t | t in adts ensures (t in a <==> t in b) && (t in a && t in b ==> a[t] == b[t]) {
      RanksType(d, a, adts, t);
      RanksType(d, b, adts, t);
      if t in a && t in b { LeastUnique(d, t, a[t], b[t]); }
    }
  }

  lemma SettledKeys(d: Decls, ranks: Ranks, adts: set<Ty>)
    requires Settled(d, ranks, adts)
    ensures ranks.Keys <= adts
  {
  }

  lemma RanksType(d: Decls, ranks: Ranks, adts: set<Ty>, t: Ty)
    requires Settled(d, ranks, adts) && Closed(d, adts) && t in adts
    ensures t in ranks <==> exists w :: IsOf(d, t, w)
    ensures t in ranks ==> LeastDepth(d, t, ranks[t])
  {
    RankExact(d, ranks, adts, t);
  }

  lemma LeastUnique(d: Decls, t: Ty, m: nat, n: nat)
    requires LeastDepth(d, t, m) && LeastDepth(d, t, n)
    ensures m == n
  {
    var w :| IsOf(d, t, w) && Depth(w) == m;
    var u :| IsOf(d, t, u) && Depth(u) == n;
  }

  // ----- constructors for the smallest values -----

  /** The constructors, from the `i`th on, as shallow as their type. */
  function BaseCtors(d: Decls, ranks: Ranks, ty: Ty, i: nat): seq<nat>
    requires ty in d.ctors && i <= |d.ctors[ty]|
    decreases |d.ctors[ty]| - i
  {
    if i == |d.ctors[ty]| then []
    else
      var rest := BaseCtors(d, ranks, ty, i + 1);
      if CtorRank(d, ranks, d.ctors[ty][i]) == RankOf(d, ranks, ty) then [i] + rest else rest
  }

  lemma {:induction false} BaseCtorsAre(d: Decls, ranks: Ranks, ty: Ty, i: nat)
    requires ty in d.ctors && i <= |d.ctors[ty]|
    ensures forall j :: j in BaseCtors(d, ranks, ty, i) <==>
      i <= j < |d.ctors[ty]| && CtorRank(d, ranks, d.ctors[ty][j]) == RankOf(d, ranks, ty)
    decreases |d.ctors[ty]| - i
  {
    if i < |d.ctors[ty]| { BaseCtorsAre(d, ranks, ty, i + 1); }
  }

  /** Every ranked type has a constructor of its own rank, so floor generation always has
      a constructor to choose. */
  lemma RankedHasBase(d: Decls, ranks: Ranks, adts: set<Ty>, ty: Ty)
    requires Settled(d, ranks, adts) && ty in ranks
    ensures ty in d.ctors && BaseCtors(d, ranks, ty, 0) != []
    ensures MinCost(d, ranks, ty) == Some(ranks[ty])
  {
    MinCostIsMin(d, ranks, d.ctors[ty]);
    var i :| 0 <= i < |d.ctors[ty]| && CtorRank(d, ranks, d.ctors[ty][i]) == MinCost(d, ranks, ty);
    BaseCtorsAre(d, ranks, ty, 0);
    assert i in BaseCtors(d, ranks, ty, 0);
  }

  // ----- the relaxation as the compiler runs it -----

  function Sum(ranks: Ranks, adts: seq<Ty>): nat {
    if adts == [] then 0 else (if adts[0] in ranks then ranks[adts[0]] else 0) + Sum(ranks, adts[1..])
  }

  lemma {:induction false} SumLowered(a: Ranks, b: Ranks, adts: seq<Ty>)
    requires Lowered(a, b) && b.Keys == a.Keys
    ensures Sum(b, adts) <= Sum(a, adts)
    ensures (exists t :: t in adts && t in a && b[t] < a[t]) ==> Sum(b, adts) < Sum(a, adts)
  {
    if adts != [] {
      SumLowered(a, b, adts[1..]);
      assert forall t :: t in adts ==> t == adts[0] || t in adts[1..];
    }
  }

  function ToSet(adts: seq<Ty>): set<Ty> {
    set t | t in adts
  }

  ghost predicate Improved(a: Ranks, b: Ranks) {
    exists t :: t in b && (t in a ==> b[t] < a[t])
  }

  lemma LoweredSelf(d: Decls, ranks: Ranks)
    ensures Lowered(ranks, ranks) && Stable(d, ranks, ToSet([]))
  {
  }

  lemma LoweredTrans(a: Ranks, b: Ranks, c: Ranks)
    requires Lowered(a, b) && Lowered(b, c)
    ensures Lowered(a, c)
    ensures Improved(a, b) ==> Improved(a, c)
  {
    if Improved(a, b) {
      var t :| t in b && (t in a ==> b[t] < a[t]);
      assert t in c && c[t] <= b[t];
    }
  }

  lemma ImprovedThen(a: Ranks, b: Ranks, c: Ranks)
    requires Lowered(a, b) && Improved(b, c)
    ensures Improved(a, c)
  {
    var t :| t in c && (t in b ==> c[t] < b[t]);
    assert t in a ==> c[t] < a[t];
  }

  lemma ImprovedIn(a: Ranks, b: Ranks, adts: seq<Ty>)
    requires b.Keys <= ToSet(adts)
    ensures Improved(a, b) ==> exists t :: t in adts && t in b && (t in a ==> b[t] < a[t])
  {
    if Improved(a, b) {
      var t :| t in b && (t in a ==> b[t] < a[t]);
      assert t in adts;
    }
  }

  lemma StableMore(d: Decls, ranks: Ranks, adts: seq<Ty>, t: Ty)
    requires Stable(d, ranks, ToSet(adts))
    requires MinCost(d, ranks, t).Some? ==> t in ranks && ranks[t] <= MinCost(d, ranks, t).value
    ensures Stable(d, ranks, ToSet(adts + [t]))
  {
  }

  /** Takes the least constructor of one type if that is an improvement. */
  method RelaxOne(d: Decls, before: Ranks, t: Ty) returns (ranks: Ranks, moved: bool)
    requires Realised(d, before) && Supported(d, before) && t.Adt? && t !in d.custom
    ensures Realised(d, ranks) && Supported(d, ranks) && Lowered(before, ranks) && ranks.Keys <= before.Keys + {t}
    ensures moved ==> Improved(before, ranks)
    ensures !moved ==> ranks == before
    ensures !moved && MinCost(d, ranks, t).Some? ==> t in ranks && ranks[t] <= MinCost(d, ranks, t).value
  {
    hide Realised, Supported, MinCost;
    var cost := MinCost(d, before, t);
    ranks, moved := before, cost.Some? && (t !in before || cost.value < before[t]);
    if moved {
      Improve(d, before, t);
      ranks := before[t := cost.value];
      assert t in ranks;
    }
  }

  /** One pass over the types in order. */
  method Relax(d: Decls, adts: seq<Ty>, start: Ranks) returns (ranks: Ranks, changed: bool)
    requires Realised(d, start) && Supported(d, start) && start.Keys <= ToSet(adts)
    requires forall t :: t in adts ==> t.Adt? && t !in d.custom
    ensures Realised(d, ranks) && Supported(d, ranks) && Lowered(start, ranks) && ranks.Keys <= ToSet(adts)
    ensures !changed ==> ranks == start && Stable(d, ranks, ToSet(adts))
    ensures changed ==> exists t :: t in adts && t in ranks && (t in start ==> ranks[t] < start[t])
  {
    hide Realised, Supported, Lowered, Stable;
    ranks, changed := start, false;
    LoweredSelf(d, start);
    for i := 0 to |adts|
      invariant Realised(d, ranks) && Supported(d, ranks) && Lowered(start, ranks) && ranks.Keys <= ToSet(adts)
      invariant !changed ==> ranks == start && Stable(d, ranks, ToSet(adts[..i]))
      invariant changed ==> Improved(start, ranks)
    {
      ghost var before := ranks;
      var moved;
      ranks, moved := RelaxOne(d, ranks, adts[i]);
      LoweredTrans(start, before, ranks);
      if moved {
        ImprovedThen(start, before, ranks);
      } else {
        assert adts[..i + 1] == adts[..i] + [adts[i]];
        if !changed { StableMore(d, ranks, adts[..i], adts[i]); }
      }
      changed := changed || moved;
    }
    assert adts[..|adts|] == adts;
    ImprovedIn(start, ranks, adts);
  }

  method ComputeRanks(d: Decls, adts: seq<Ty>) returns (ranks: Ranks)
    requires forall t :: t in adts ==> t.Adt? && t !in d.custom
    ensures Settled(d, ranks, ToSet(adts))
  {
    ranks := map[];
    var changed := true;
    while changed
      invariant Realised(d, ranks) && Supported(d, ranks) && ranks.Keys <= ToSet(adts)
      invariant !changed ==> Stable(d, ranks, ToSet(adts))
      decreases |ToSet(adts)| - |ranks.Keys|, Sum(ranks, adts), changed
    {
      ghost var before := ranks;
      ranks, changed := Relax(d, adts, ranks);
      Progress(adts, before, ranks, changed);
    }
  }

  /** A pass that changed something ranked another type or lowered a rank. */
  lemma Progress(adts: seq<Ty>, before: Ranks, ranks: Ranks, changed: bool)
    requires Lowered(before, ranks) && before.Keys <= ranks.Keys <= ToSet(adts)
    requires changed ==> exists t :: t in adts && t in ranks && (t in before ==> ranks[t] < before[t])
    requires !changed ==> ranks == before
    ensures |before.Keys| <= |ranks.Keys| <= |ToSet(adts)|
    ensures changed && |before.Keys| == |ranks.Keys| ==> Sum(ranks, adts) < Sum(before, adts)
  {
    SubsetSize(before.Keys, ranks.Keys);
    SubsetSize(ranks.Keys, ToSet(adts));
    if changed && |before.Keys| == |ranks.Keys| {
      SumLowered(before, ranks, adts);
    }
  }

  /** The declared types reachable from `roots`, ranked. */
  method RanksFor(d: Decls, roots: seq<Ty>) returns (ranks: Ranks, ghost adts: set<Ty>)
    ensures Settled(d, ranks, adts) && Closed(d, adts) && CleanAll(d, None, roots, adts)
  {
    var walk := new TypeWalk(d, None);
    for i := 0 to |roots|
      invariant walk.decls == d && walk.target == None && walk.Valid()
      invariant Closed(d, walk.visited) && CleanAll(d, None, roots[..i], walk.visited)
    {
      ghost var before := walk.visited;
      NeverFound(d, roots[i], before);
      ExploreClean(d, roots[i], None, before);
      var found := walk.Visit(roots[i]);
      CleanAllMonotone(d, None, roots[..i], before, walk.visited);
      SearchedMonotone(d, None, before, before, walk.visited);
      assert walk.visited == before + (walk.visited - before);
      assert roots[..i + 1] == roots[..i] + [roots[i]];
    }
    assert roots[..|roots|] == roots;
    ranks := ComputeRanks(d, walk.entered);
    adts := ToSet(walk.entered);
    assert adts == walk.visited;
  }

  lemma {:induction false} NeverFound(d: Decls, ty: Ty, visited: set<Ty>)
    ensures !Explore(d, ty, None, visited).found
    decreases d.ctors.Keys - visited, ty, 0
  {
    if ty !in d.custom {
      match ty
      case Tuple(es) => NoneFound(d, es, visited);
      case Record(fs) => NoneFound(d, fs, visited);
      case List(e) => NeverFound(d, e, visited);
      case Array(e) => NeverFound(d, e, visited);
      case OptionOf(e) => NeverFound(d, e, visited);
      case ResultOf(ok, err) => NeverFound(d, ok, visited); NeverFound(d, err, Explore(d, ok, None, visited).visited);
      case Adt(_, _) => if ty !in visited && ty in d.ctors { NoneFound(d, Flatten(d.ctors[ty]), visited + {ty}); }
      case _ =>
    }
  }

  lemma {:induction false} NoneFound(d: Decls, tys: seq<Ty>, visited: set<Ty>)
    ensures !ExploreAny(d, tys, None, visited).found
    decreases d.ctors.Keys - visited, tys, 1
  {
    if tys != [] {
      NeverFound(d, tys[0], visited);
      NoneFound(d, tys[1..], Explore(d, tys[0], None, visited).visited);
    }
  }
}
