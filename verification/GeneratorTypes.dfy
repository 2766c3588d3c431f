/** The types property tests generate values of, as a graph: which types generating one
    type can come back to. */
module GeneratorTypes {
  import opened Machine

  /** `Other` stands for variables, functions, interfaces and errors: no generator. */
  datatype Ty =
    | Unit | Con(id: nat)
    | Tuple(elems: seq<Ty>) | Record(fields: seq<Ty>)
    | List(elem: Ty) | Array(elem: Ty) | OptionOf(elem: Ty) | ResultOf(ok: Ty, err: Ty) | TextPairs
    | Adt(name: nat, args: seq<Ty>)
    | Other(id: nat)

  /** The declared constructors of each applied type, monomorphic, and the types with a
      generator of the user's own. */
  datatype Decls = Decls(ctors: map<Ty, seq<seq<Ty>>>, custom: set<Ty>)

  function Flatten(ctors: seq<seq<Ty>>): seq<Ty> {
    if ctors == [] then [] else ctors[0] + Flatten(ctors[1..])
  }

  lemma {:induction false} InFlatten(ctors: seq<seq<Ty>>, i: nat, j: nat)
    requires i < |ctors| && j < |ctors[i]|
    ensures ctors[i][j] in Flatten(ctors)
    decreases i
  {
    if i == 0 {
      assert Flatten(ctors)[j] == ctors[0][j];
    } else {
      InFlatten(ctors[1..], i - 1, j);
      var k :| 0 <= k < |Flatten(ctors[1..])| && Flatten(ctors[1..])[k] == ctors[i][j];
      assert Flatten(ctors)[|ctors[0]| + k] == ctors[i][j];
    }
  }

  /** The types directly inside a type, or in the fields of its constructors. */
  function Children(d: Decls, ty: Ty): seq<Ty> {
    if ty in d.custom then []
    else match ty
      case Tuple(es) => es
      case Record(fs) => fs
      case List(e) => [e]
      case Array(e) => [e]
      case OptionOf(e) => [e]
      case ResultOf(ok, err) => [ok, err]
      case Adt(_, _) => if ty in d.ctors then Flatten(d.ctors[ty]) else []
      case _ => []
  }

  ghost predicate ReachesIn(d: Decls, a: Ty, b: Ty, steps: nat)
    decreases steps
  {
    if steps == 0 then a == b else exists c :: c in Children(d, a) && ReachesIn(d, c, b, steps - 1)
  }

  ghost predicate Reaches(d: Decls, a: Ty, b: Ty) {
    exists steps: nat :: ReachesIn(d, a, b, steps)
  }

  lemma ReachesSelf(d: Decls, a: Ty)
    ensures Reaches(d, a, a)
  {
    assert ReachesIn(d, a, a, 0);
  }

  lemma ReachesStep(d: Decls, a: Ty, b: Ty, c: Ty)
    requires b in Children(d, a) && Reaches(d, b, c)
    ensures Reaches(d, a, c)
  {
    var n: nat :| ReachesIn(d, b, c, n);
    assert ReachesIn(d, a, c, n + 1);
  }

  // ----- the depth-first search -----

  datatype Search = Search(found: bool, visited: set<Ty>)

  /** Looks for `target` from `ty`, entering each declared type once. Without a target it
      collects the declared types reachable from `ty`. */
  function Explore(d: Decls, ty: Ty, target: Option<Ty>, visited: set<Ty>): (r: Search)
    ensures visited <= r.visited
    decreases d.ctors.Keys - visited, ty, 0
  {
    if target == Some(ty) then Search(true, visited)
    else if ty in d.custom then Search(false, visited)
    else match ty
      case Tuple(es) => ExploreAny(d, es, target, visited)
      case Record(fs) => ExploreAny(d, fs, target, visited)
      case List(e) => Explore(d, e, target, visited)
      case Array(e) => Explore(d, e, target, visited)
      case OptionOf(e) => Explore(d, e, target, visited)
      case ResultOf(ok, err) =>
        var r := Explore(d, ok, target, visited);
        if r.found then r else Explore(d, err, target, r.visited)
      case Adt(_, _) =>
        if ty in visited then Search(false, visited)
        else if ty !in d.ctors then Search(false, visited + {ty})
        else ExploreAny(d, Flatten(d.ctors[ty]), target, visited + {ty})
      case _ => Search(false, visited)
  }

  function ExploreAny(d: Decls, tys: seq<Ty>, target: Option<Ty>, visited: set<Ty>): (r: Search)
    ensures visited <= r.visited
    decreases d.ctors.Keys - visited, tys, 1
  {
    if tys == [] then Search(false, visited)
    else
      var r := Explore(d, tys[0], target, visited);
      if r.found then r else ExploreAny(d, tys[1..], target, r.visited)
  }

  lemma {:induction false} FoundIsReached(d: Decls, ty: Ty, target: Ty, visited: set<Ty>)
    requires Explore(d, ty, Some(target), visited).found
    ensures Reaches(d, ty, target)
    decreases d.ctors.Keys - visited, ty, 0
  {
    if ty == target {
      ReachesSelf(d, ty);
    } else {
      var c :=
        match ty
        case Tuple(es) => FoundAmong(d, es, target, visited)
        case Record(fs) => FoundAmong(d, fs, target, visited)
        case List(e) => FoundOne(d, e, target, visited)
        case Array(e) => FoundOne(d, e, target, visited)
        case OptionOf(e) => FoundOne(d, e, target, visited)
        case ResultOf(ok, err) =>
          if Explore(d, ok, Some(target), visited).found then FoundOne(d, ok, target, visited)
          else FoundOne(d, err, target, Explore(d, ok, Some(target), visited).visited)
        case Adt(_, _) => FoundAmong(d, Flatten(d.ctors[ty]), target, visited + {ty});
      ReachesStep(d, ty, c, target);
    }
  }

  ghost function FoundOne(d: Decls, ty: Ty, target: Ty, visited: set<Ty>): (c: Ty)
    requires Explore(d, ty, Some(target), visited).found
    ensures c == ty && Reaches(d, ty, target)
    decreases d.ctors.Keys - visited, ty, 1
  {
    FoundIsReached(d, ty, target, visited);
    ty
  }

  ghost function FoundAmong(d: Decls, tys: seq<Ty>, target: Ty, visited: set<Ty>): (c: Ty)
    requires ExploreAny(d, tys, Some(target), visited).found
    ensures c in tys && Reaches(d, c, target)
    decreases d.ctors.Keys - visited, tys, 2
  {
    if Explore(d, tys[0], Some(target), visited).found then FoundOne(d, tys[0], target, visited)
    else FoundAmong(d, tys[1..], target, Explore(d, tys[0], Some(target), visited).visited)
  }

  /** The search went through `ty`: neither it nor anything structurally inside it is the
      target, and every declared type in it was entered. */
  predicate Clean(d: Decls, target: Option<Ty>, ty: Ty, entered: set<Ty>) {
    target != Some(ty) &&
    (ty in d.custom ||
      match ty
      case Tuple(es) => forall i :: 0 <= i < |es| ==> Clean(d, target, es[i], entered)
      case Record(fs) => forall i :: 0 <= i < |fs| ==> Clean(d, target, fs[i], entered)
      case List(e) => Clean(d, target, e, entered)
      case Array(e) => Clean(d, target, e, entered)
      case OptionOf(e) => Clean(d, target, e, entered)
      case ResultOf(ok, err) => Clean(d, target, ok, entered) && Clean(d, target, err, entered)
      case Adt(_, _) => ty in entered
      case _ => true)
  }

  lemma {:induction false} CleanMonotone(d: Decls, target: Option<Ty>, ty: Ty, a: set<Ty>, b: set<Ty>)
    requires Clean(d, target, ty, a) && a <= b
    ensures Clean(d, target, ty, b)
    decreases ty
  {
    if ty !in d.custom {
      match ty
      case Tuple(es) =>
        forall i | 0 <= i < |es| ensures Clean(d, target, es[i], b) { CleanMonotone(d, target, es[i], a, b); }
      case Record(fs) =>
        forall i | 0 <= i < |fs| ensures Clean(d, target, fs[i], b) { CleanMonotone(d, target, fs[i], a, b); }
      case List(e) => CleanMonotone(d, target, e, a, b);
      case Array(e) => CleanMonotone(d, target, e, a, b);
      case OptionOf(e) => CleanMonotone(d, target, e, a, b);
      case ResultOf(ok, err) => CleanMonotone(d, target, ok, a, b); CleanMonotone(d, target, err, a, b);
      case _ =>
    }
  }

  ghost predicate CleanAll(d: Decls, target: Option<Ty>, tys: seq<Ty>, entered: set<Ty>) {
    forall i :: 0 <= i < |tys| ==> Clean(d, target, tys[i], entered)
  }

  /** The fields of every type in `some` were searched. */
  ghost predicate Searched(d: Decls, target: Option<Ty>, some: set<Ty>, entered: set<Ty>) {
    forall t :: t in some && t in d.ctors ==> CleanAll(d, target, Flatten(d.ctors[t]), entered)
  }

  lemma SearchedMonotone(d: Decls, target: Option<Ty>, some: set<Ty>, a: set<Ty>, b: set<Ty>)
    requires Searched(d, target, some, a) && a <= b
    ensures Searched(d, target, some, b)
  {
    forall t | t in some && t in d.ctors ensures CleanAll(d, target, Flatten(d.ctors[t]), b) {
      CleanAllMonotone(d, target, Flatten(d.ctors[t]), a, b);
    }
  }

  lemma CleanAllMonotone(d: Decls, target: Option<Ty>, tys: seq<Ty>, a: set<Ty>, b: set<Ty>)
    requires CleanAll(d, target, tys, a) && a <= b
    ensures CleanAll(d, target, tys, b)
  {
    forall i | 0 <= i < |tys| ensures Clean(d, target, tys[i], b) {
      CleanMonotone(d, target, tys[i], a, b);
    }
  }

  /** A search that ends without finding the target was exhaustive. */
  lemma {:induction false} ExploreClean(d: Decls, ty: Ty, target: Option<Ty>, visited: set<Ty>)
    requires !Explore(d, ty, target, visited).found
    ensures var r := Explore(d, ty, target, visited);
      Clean(d, target, ty, r.visited) && Searched(d, target, r.visited - visited, r.visited)
    decreases d.ctors.Keys - visited, ty, 0
  {
    var r := Explore(d, ty, target, visited);
    if ty !in d.custom {
      match ty
      case Tuple(es) => ExploreAllClean(d, es, target, visited);
      case Record(fs) => ExploreAllClean(d, fs, target, visited);
      case List(e) => ExploreClean(d, e, target, visited);
      case Array(e) => ExploreClean(d, e, target, visited);
      case OptionOf(e) => ExploreClean(d, e, target, visited);
      case ResultOf(ok, err) =>
        var r1 := Explore(d, ok, target, visited);
        ExploreClean(d, ok, target, visited);
        ExploreClean(d, err, target, r1.visited);
        CleanMonotone(d, target, ok, r1.visited, r.visited);
        SearchedBoth(d, target, visited, r1.visited, r.visited);
      case Adt(_, _) =>
        if ty !in visited && ty in d.ctors {
          ExploreAllClean(d, Flatten(d.ctors[ty]), target, visited + {ty});
        }
      case _ =>
    }
  }

  lemma SearchedBoth(d: Decls, target: Option<Ty>, a: set<Ty>, b: set<Ty>, c: set<Ty>)
    requires a <= b <= c && Searched(d, target, b - a, b) && Searched(d, target, c - b, c)
    ensures Searched(d, target, c - a, c)
  {
    SearchedMonotone(d, target, b - a, b, c);
  }

  lemma {:induction false} ExploreAllClean(d: Decls, tys: seq<Ty>, target: Option<Ty>, visited: set<Ty>)
    requires !ExploreAny(d, tys, target, visited).found
    ensures var r := ExploreAny(d, tys, target, visited);
      CleanAll(d, target, tys, r.visited) && Searched(d, target, r.visited - visited, r.visited)
    decreases d.ctors.Keys - visited, tys, 1
  {
    if tys != [] {
      var r := ExploreAny(d, tys, target, visited);
      var r1 := Explore(d, tys[0], target, visited);
      ExploreClean(d, tys[0], target, visited);
      ExploreAllClean(d, tys[1..], target, r1.visited);
      CleanMonotone(d, target, tys[0], r1.visited, r.visited);
      SearchedBoth(d, target, visited, r1.visited, r.visited);
      assert forall i :: 0 < i < |tys| ==> tys[i] == tys[1..][i - 1];
    }
  }

  lemma {:induction false} CleanChild(d: Decls, target: Option<Ty>, ty: Ty, c: Ty, entered: set<Ty>)
    requires Clean(d, target, ty, entered) && Searched(d, target, entered, entered) && c in Children(d, ty)
    ensures Clean(d, target, c, entered)
  {
  }

  lemma {:induction false} CleanMisses(d: Decls, target: Ty, ty: Ty, entered: set<Ty>, steps: nat)
    requires Clean(d, Some(target), ty, entered) && Searched(d, Some(target), entered, entered)
    ensures !ReachesIn(d, ty, target, steps)
    decreases steps
  {
    if steps > 0 && ReachesIn(d, ty, target, steps) {
      var c :| c in Children(d, ty) && ReachesIn(d, c, target, steps - 1);
      CleanChild(d, Some(target), ty, c, entered);
      CleanMisses(d, target, c, entered, steps - 1);
    }
  }

  /** Whether generating `field` can come back to `target`. */
  predicate CanReach(d: Decls, field: Ty, target: Ty) {
    Explore(d, field, Some(target), {}).found
  }

  /** The search is exact. */
  lemma CanReachExact(d: Decls, field: Ty, target: Ty)
    ensures CanReach(d, field, target) <==> Reaches(d, field, target)
  {
    if CanReach(d, field, target) {
      FoundIsReached(d, field, target, {});
    } else {
      ExploreClean(d, field, Some(target), {});
      var r := Explore(d, field, Some(target), {});
      assert r.visited - {} == r.visited;
      forall steps: nat ensures !ReachesIn(d, field, target, steps) {
        CleanMisses(d, target, field, r.visited, steps);
      }
    }
  }

  // ----- the search as the compiler runs it -----

  class TypeWalk {
    const decls: Decls
    const target: Option<Ty>
    var visited: set<Ty>
    /** The visited types in the order they were entered. */
    var entered: seq<Ty>

    ghost predicate Valid()
      reads this
    {
      && (forall t :: t in visited <==> t in entered)
      && forall t :: t in visited ==> t.Adt? && t !in decls.custom
    }

    constructor (decls: Decls, target: Option<Ty>)
      ensures this.decls == decls && this.target == target && visited == {} && Valid()
    {
      this.decls, this.target, this.visited, this.entered := decls, target, {}, [];
    }

    method Visit(ty: Ty) returns (found: bool)
      requires Valid()
      modifies this
      ensures Valid() && Search(found, visited) == Explore(decls, ty, target, old(visited))
      decreases decls.ctors.Keys - visited, ty, 0
    {
      if target == Some(ty) { return true; }
      if ty in decls.custom { return false; }
      match ty
      case Tuple(es) => found := VisitAny(es);
      case Record(fs) => found := VisitAny(fs);
      case List(e) => found := Visit(e);
      case Array(e) => found := Visit(e);
      case OptionOf(e) => found := Visit(e);
      case ResultOf(ok, err) =>
        found := Visit(ok);
        if !found { found := Visit(err); }
      case Adt(_, _) =>
        if ty in visited { return false; }
        ghost var fewer := decls.ctors.Keys - visited;
        visited, entered := visited + {ty}, entered + [ty];
        if ty !in decls.ctors { return false; }
        assert ty in fewer;
        found := VisitAny(Flatten(decls.ctors[ty]));
      case _ => found := false;
    }

    method VisitAny(tys: seq<Ty>) returns (found: bool)
      requires Valid()
      modifies this
      ensures Valid() && Search(found, visited) == ExploreAny(decls, tys, target, old(visited))
      decreases decls.ctors.Keys - visited, tys, 1
    {
      if tys == [] { return false; }
      found := Visit(tys[0]);
      if !found { found := VisitAny(tys[1..]); }
    }
  }
}
