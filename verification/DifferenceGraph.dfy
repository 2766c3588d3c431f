/** Difference constraints `a <= b + c` as a weighted graph, independently of how
    the compiler searches it: walks, negative cycles and the exact meaning of a
    path weight over all integer assignments. */
module DifferenceGraph {
  import opened Machine
  import opened Sets

  /** The constant zero, an integer local, or the length of an array local. */
  datatype Term = Zero | Int(local: nat) | Len(local: nat)

  datatype Edge = Edge(from: Term, to: Term)

  /** `g[Edge(a, b)] == c` records `a <= b + c`. */
  type Graph = map<Edge, int>

  function Terms(g: Graph): set<Term> {
    (set e | e in g.Keys :: e.from) + (set e | e in g.Keys :: e.to)
  }

  /** A walk, built by appending its last edge. */
  datatype Walk = Stop(at: Term) | Step(prefix: Walk, to: Term)

  function Start(w: Walk): Term {
    match w
    case Stop(t) => t
    case Step(p, _) => Start(p)
  }

  function End(w: Walk): Term {
    match w
    case Stop(t) => t
    case Step(_, t) => t
  }

  function Length(w: Walk): nat {
    match w
    case Stop(_) => 0
    case Step(p, _) => Length(p) + 1
  }

  predicate IsWalk(g: Graph, w: Walk) {
    match w
    case Stop(_) => true
    case Step(p, t) => IsWalk(g, p) && Edge(End(p), t) in g
  }

  function Weight(g: Graph, w: Walk): int
    requires IsWalk(g, w)
  {
    match w
    case Stop(_) => 0
    case Step(p, t) => Weight(g, p) + g[Edge(End(p), t)]
  }

  function Visited(w: Walk): set<Term> {
    match w
    case Stop(t) => {t}
    case Step(p, t) => Visited(p) + {t}
  }

  function Join(a: Walk, b: Walk): Walk {
    match b
    case Stop(_) => a
    case Step(p, t) => Step(Join(a, p), t)
  }

  ghost predicate Connects(g: Graph, w: Walk, from: Term, to: Term) {
    IsWalk(g, w) && Start(w) == from && End(w) == to
  }

  ghost predicate NoNegativeCycle(g: Graph) {
    forall w :: IsWalk(g, w) && Start(w) == End(w) ==> Weight(g, w) >= 0
  }

  /** An integer assignment under which every recorded constraint is true. */
  ghost predicate Satisfies(g: Graph, v: Term -> int) {
    forall e :: e in g ==> v(e.from) <= v(e.to) + g[e]
  }

  /** `a <= b + c` holds in every assignment that satisfies the graph, where the
      zero term denotes 0. */
  ghost predicate Entailed(g: Graph, a: Term, b: Term, c: int) {
    forall v: Term -> int :: Satisfies(g, v) && v(Zero) == 0 ==> v(a) <= v(b) + c
  }

  /** Some walk from `a` to `b` has weight at most `c`. */
  ghost predicate Derivable(g: Graph, a: Term, b: Term, c: int) {
    exists w :: Connects(g, w, a, b) && Weight(g, w) <= c
  }

  ghost predicate Reachable(g: Graph, a: Term, b: Term) {
    exists w :: Connects(g, w, a, b)
  }

  // ----- walks -----

  lemma {:induction false} Telescope(g: Graph, v: Term -> int, w: Walk)
    requires Satisfies(g, v) && IsWalk(g, w)
    ensures v(Start(w)) <= v(End(w)) + Weight(g, w)
  {
    match w
    case Stop(_) =>
    case Step(p, t) =>
      Telescope(g, v, p);
      assert Edge(End(p), t) in g;
  }

  lemma {:induction false} Joined(g: Graph, a: Walk, b: Walk)
    requires IsWalk(g, a) && IsWalk(g, b) && End(a) == Start(b)
    ensures Connects(g, Join(a, b), Start(a), End(b))
    ensures Weight(g, Join(a, b)) == Weight(g, a) + Weight(g, b)
    ensures Length(Join(a, b)) == Length(a) + Length(b)
  {
    match b
    case Stop(_) =>
    case Step(p, _) => Joined(g, a, p);
  }

  predicate Simple(w: Walk) {
    match w
    case Stop(_) => true
    case Step(p, t) => Simple(p) && t !in Visited(p)
  }

  /** Cuts a walk where it visits `t`. */
  lemma {:induction false} Cut(g: Graph, w: Walk, t: Term) returns (before: Walk, after: Walk)
    requires IsWalk(g, w) && t in Visited(w)
    ensures Connects(g, before, Start(w), t) && Connects(g, after, t, End(w))
    ensures Weight(g, w) == Weight(g, before) + Weight(g, after)
    ensures Simple(w) ==> Simple(before)
  {
    match w
    case Stop(_) => before, after := w, w;
    case Step(p, u) =>
      if u == t {
        before, after := w, Stop(t);
      } else {
        before, after := Cut(g, p, t);
        after := Step(after, u);
      }
  }

  /** Removing cycles of non-negative weight never makes a walk heavier. */
  lemma {:induction false} Shorten(g: Graph, w: Walk) returns (s: Walk)
    requires NoNegativeCycle(g) && IsWalk(g, w)
    ensures Connects(g, s, Start(w), End(w)) && Simple(s)
    ensures Weight(g, s) <= Weight(g, w)
  {
    match w
    case Stop(_) => s := w;
    case Step(p, t) =>
      var q := Shorten(g, p);
      if t in Visited(q) {
        var before, after := Cut(g, q, t);
        var cycle := Step(after, t);
        assert IsWalk(g, cycle) && Start(cycle) == End(cycle);
        s := before;
      } else {
        s := Step(q, t);
      }
  }

  /** Reachability alone never needs a repeated term, whatever the weights. */
  lemma {:induction false} ShortenReach(g: Graph, w: Walk) returns (s: Walk)
    requires IsWalk(g, w)
    ensures Connects(g, s, Start(w), End(w)) && Simple(s)
  {
    match w
    case Stop(_) => s := w;
    case Step(p, t) =>
      var q := ShortenReach(g, p);
      if t in Visited(q) {
        var before, after := Cut(g, q, t);
        s := before;
      } else {
        s := Step(q, t);
      }
  }

  lemma {:induction false} SimpleSize(w: Walk)
    requires Simple(w)
    ensures |Visited(w)| == Length(w) + 1
  {
    match w
    case Stop(_) =>
    case Step(p, t) => SimpleSize(p);
  }

  lemma {:induction false} VisitsTerms(g: Graph, w: Walk)
    requires IsWalk(g, w) && w.Step?
    ensures Visited(w) <= Terms(g)
  {
    var p, t := w.prefix, w.to;
    var e := Edge(End(p), t);
    assert e in g.Keys;
    if p.Step? {
      VisitsTerms(g, p);
    } else {
      assert Visited(p) == {e.from};
    }
  }

  /** A simple walk has fewer edges than the graph has terms. */
  lemma SimpleBound(g: Graph, w: Walk)
    requires IsWalk(g, w) && Simple(w)
    ensures Length(w) <= |Terms(g)|
    ensures w.Step? ==> Length(w) < |Terms(g)|
  {
    SimpleSize(w);
    if w.Step? {
      VisitsTerms(g, w);
      SubsetSize(Visited(w), Terms(g));
    }
  }

  lemma SatisfiableHasNoNegativeCycle(g: Graph, v: Term -> int)
    requires Satisfies(g, v)
    ensures NoNegativeCycle(g)
  {
    forall w | IsWalk(g, w) && Start(w) == End(w) ensures Weight(g, w) >= 0 {
      Telescope(g, v, w);
    }
  }

  // ----- least weights -----

  ghost predicate WeightsAbove(g: Graph, low: int) {
    low <= 0 && forall e :: e in g ==> low <= g[e]
  }

  lemma {:induction false} LowWeight(g: Graph) returns (low: int)
    ensures WeightsAbove(g, low)
  {
    if g == map[] {
      low := 0;
    } else {
      var e :| e in g;
      var rest := g - {e};
      low := LowWeight(rest);
      low := Min(low, g[e]);
      forall d | d in g ensures low <= g[d] {
        if d != e { assert d in rest && rest[d] == g[d]; }
      }
    }
  }

  lemma {:induction false} WeightAtLeast(g: Graph, low: int, w: Walk)
    requires WeightsAbove(g, low) && IsWalk(g, w)
    ensures Weight(g, w) >= low * Length(w)
  {
    match w
    case Stop(_) =>
    case Step(p, _) => WeightAtLeast(g, low, p);
  }

  /** In a graph without negative cycles no walk is lighter than this bound. */
  ghost function Floor(g: Graph, low: int): int {
    low * |Terms(g)|
  }

  lemma AboveFloor(g: Graph, low: int, w: Walk)
    requires NoNegativeCycle(g) && WeightsAbove(g, low) && IsWalk(g, w)
    ensures Weight(g, w) >= Floor(g, low)
  {
    var s := Shorten(g, w);
    SimpleBound(g, s);
    WeightAtLeast(g, low, s);
    MulMonotone(low, Length(s), |Terms(g)|);
  }

  lemma MulMonotone(low: int, a: nat, b: nat)
    requires low <= 0 && a <= b
    ensures low * a >= low * b
  {
  }

  ghost predicate Lightest(g: Graph, w: Walk) {
    IsWalk(g, w) && forall u :: Connects(g, u, Start(w), End(w)) ==> Weight(g, w) <= Weight(g, u)
  }

  lemma {:induction false} HasLightest(g: Graph, low: int, w: Walk) returns (best: Walk)
    requires NoNegativeCycle(g) && WeightsAbove(g, low) && IsWalk(g, w)
    ensures Connects(g, best, Start(w), End(w)) && Lightest(g, best)
    decreases Weight(g, w) - Floor(g, low)
  {
    AboveFloor(g, low, w);
    if Lightest(g, w) {
      best := w;
    } else {
      var u :| Connects(g, u, Start(w), End(w)) && Weight(g, u) < Weight(g, w);
      AboveFloor(g, low, u);
      best := HasLightest(g, low, u);
    }
  }

  lemma LightestExists(g: Graph, a: Term, b: Term)
    requires NoNegativeCycle(g) && Reachable(g, a, b)
    ensures exists w :: Connects(g, w, a, b) && Lightest(g, w)
  {
    var w :| Connects(g, w, a, b);
    var low := LowWeight(g);
    var best := HasLightest(g, low, w);
  }

  ghost function Distance(g: Graph, a: Term, b: Term): int
    requires NoNegativeCycle(g) && Reachable(g, a, b)
  {
    LightestExists(g, a, b);
    var w :| Connects(g, w, a, b) && Lightest(g, w);
    Weight(g, w)
  }

  lemma DistanceIsLeast(g: Graph, a: Term, w: Walk)
    requires NoNegativeCycle(g) && IsWalk(g, w) && Start(w) == a
    ensures Reachable(g, a, End(w)) && Distance(g, a, End(w)) <= Weight(g, w)
  {
    assert Connects(g, w, a, End(w));
  }

  lemma DistanceIsWalked(g: Graph, a: Term, b: Term) returns (w: Walk)
    requires NoNegativeCycle(g) && Reachable(g, a, b)
    ensures Connects(g, w, a, b) && Weight(g, w) == Distance(g, a, b)
  {
    LightestExists(g, a, b);
    w :| Connects(g, w, a, b) && Weight(g, w) == Distance(g, a, b);
  }

  // ----- assignments that realise the distances -----

  /** Some walk ends at `t` and none that ends there is lighter. */
  ghost predicate LightestInto(g: Graph, t: Term, w: Walk) {
    IsWalk(g, w) && End(w) == t && forall u :: IsWalk(g, u) && End(u) == t ==> Weight(g, w) <= Weight(g, u)
  }

  lemma {:induction false} HasLightestInto(g: Graph, low: int, w: Walk) returns (best: Walk)
    requires NoNegativeCycle(g) && WeightsAbove(g, low) && IsWalk(g, w)
    ensures LightestInto(g, End(w), best)
    decreases Weight(g, w) - Floor(g, low)
  {
    AboveFloor(g, low, w);
    if LightestInto(g, End(w), w) {
      best := w;
    } else {
      var u :| IsWalk(g, u) && End(u) == End(w) && Weight(g, u) < Weight(g, w);
      AboveFloor(g, low, u);
      best := HasLightestInto(g, low, u);
    }
  }

  lemma LightestIntoExists(g: Graph, t: Term)
    requires NoNegativeCycle(g)
    ensures exists w :: LightestInto(g, t, w)
  {
    var low := LowWeight(g);
    var best := HasLightestInto(g, low, Stop(t));
  }

  ghost function Potential(g: Graph, t: Term): int
    requires NoNegativeCycle(g)
  {
    LightestIntoExists(g, t);
    var w :| LightestInto(g, t, w);
    -Weight(g, w)
  }

  lemma PotentialSatisfies(g: Graph)
    requires NoNegativeCycle(g)
    ensures Satisfies(g, t => Potential(g, t))
  {
    var v := t => Potential(g, t);
    forall e | e in g ensures v(e.from) <= v(e.to) + g[e] {
      LightestIntoExists(g, e.from);
      LightestIntoExists(g, e.to);
      var w :| LightestInto(g, e.from, w) && Potential(g, e.from) == -Weight(g, w);
      var u :| LightestInto(g, e.to, u) && Potential(g, e.to) == -Weight(g, u);
      assert IsWalk(g, Step(w, e.to)) && End(Step(w, e.to)) == e.to;
    }
  }

  /** A set of difference constraints is satisfiable exactly when no cycle is negative. */
  lemma SatisfiableIffNoNegativeCycle(g: Graph)
    ensures (exists v: Term -> int :: Satisfies(g, v)) <==> NoNegativeCycle(g)
  {
    if NoNegativeCycle(g) {
      PotentialSatisfies(g);
    }
    if v: Term -> int :| Satisfies(g, v) {
      SatisfiableHasNoNegativeCycle(g, v);
    }
  }

  /** Distances from `a` where it reaches, a satisfying assignment pushed far down elsewhere. */
  ghost function Extremal(g: Graph, a: Term, drop: int, t: Term): int
    requires NoNegativeCycle(g)
  {
    if Reachable(g, a, t) then -Distance(g, a, t) else Potential(g, t) - drop
  }

  ghost predicate DropsEnough(g: Graph, a: Term, drop: int, keys: set<Edge>)
    requires NoNegativeCycle(g)
  {
    forall e :: e in keys && e in g && Reachable(g, a, e.to) && !Reachable(g, a, e.from) ==>
      Potential(g, e.from) - drop <= -Distance(g, a, e.to) + g[e]
  }

  lemma {:induction false} EnoughDrop(g: Graph, a: Term, floor: int, keys: set<Edge>) returns (drop: int)
    requires NoNegativeCycle(g)
    ensures drop >= floor && DropsEnough(g, a, drop, keys)
  {
    if keys == {} {
      drop := floor;
    } else {
      var e :| e in keys;
      drop := EnoughDrop(g, a, floor, keys - {e});
      if e in g && Reachable(g, a, e.to) && !Reachable(g, a, e.from) {
        drop := Max(drop, Potential(g, e.from) + Distance(g, a, e.to) - g[e]);
      }
    }
  }

  lemma ExtremalSatisfies(g: Graph, a: Term, drop: int)
    requires NoNegativeCycle(g) && DropsEnough(g, a, drop, g.Keys)
    ensures Satisfies(g, t => Extremal(g, a, drop, t))
  {
    PotentialSatisfies(g);
    var pot := t => Potential(g, t);
    var v := t => Extremal(g, a, drop, t);
    forall e | e in g ensures v(e.from) <= v(e.to) + g[e] {
      if Reachable(g, a, e.from) {
        var w := DistanceIsWalked(g, a, e.from);
        var longer := Step(w, e.to);
        assert IsWalk(g, longer) && End(longer) == e.to;
        DistanceIsLeast(g, a, longer);
      } else if !Reachable(g, a, e.to) {
        assert pot(e.from) <= pot(e.to) + g[e];
      }
    }
  }

  /** Shifting an assignment by a constant keeps every difference. */
  lemma ShiftSatisfies(g: Graph, v: Term -> int, k: int)
    requires Satisfies(g, v)
    ensures Satisfies(g, t => v(t) - k)
  {
    var s := t => v(t) - k;
    forall e | e in g ensures s(e.from) <= s(e.to) + g[e] {
      assert v(e.from) <= v(e.to) + g[e];
    }
  }

  /** An assignment in which `a` exceeds `b + c` whenever no walk says otherwise. */
  lemma Refutes(g: Graph, a: Term, b: Term, c: int)
    requires NoNegativeCycle(g) && !Derivable(g, a, b, c)
    ensures !Entailed(g, a, b, c)
  {
    assert IsWalk(g, Stop(a)) && Connects(g, Stop(a), a, a);
    var aa := DistanceIsWalked(g, a, a);
    DistanceIsLeast(g, a, Stop(a));
    var drop := EnoughDrop(g, a, Potential(g, b) + c + 1, g.Keys);
    ExtremalSatisfies(g, a, drop);
    var v := t => Extremal(g, a, drop, t);
    assert v(a) == 0;
    if Reachable(g, a, b) {
      var w := DistanceIsWalked(g, a, b);
    }
    assert v(a) > v(b) + c;
    var k := v(Zero);
    ShiftSatisfies(g, v, k);
    var s := t => v(t) - k;
    assert Satisfies(g, s) && s(Zero) == 0 && s(a) > s(b) + c;
  }

  /** Path weights are sound in every graph and complete when no cycle is negative:
      a bound is entailed by all integer assignments exactly when a walk derives it. */
  lemma DerivableIsEntailed(g: Graph, a: Term, b: Term, c: int)
    ensures Derivable(g, a, b, c) ==> Entailed(g, a, b, c)
    ensures NoNegativeCycle(g) ==> (Derivable(g, a, b, c) <==> Entailed(g, a, b, c))
  {
    if Derivable(g, a, b, c) {
      var w :| Connects(g, w, a, b) && Weight(g, w) <= c;
      forall v: Term -> int | Satisfies(g, v) ensures v(a) <= v(b) + c {
        Telescope(g, v, w);
      }
    } else if NoNegativeCycle(g) {
      Refutes(g, a, b, c);
    }
  }

  // ----- sizes -----

  function Pairs(xs: set<Term>, ys: set<Term>): set<Edge> {
    set x, y | x in xs && y in ys :: Edge(x, y)
  }

  lemma {:induction false} PairCount(xs: set<Term>, ys: set<Term>)
    ensures |Pairs(xs, ys)| == |xs| * |ys|
  {
    if xs == {} {
      assert Pairs(xs, ys) == {};
    } else {
      var x :| x in xs;
      PairCount(xs - {x}, ys);
      RowCount(x, ys);
      assert Pairs(xs, ys) == Pairs(xs - {x}, ys) + Pairs({x}, ys);
      assert Pairs(xs - {x}, ys) !! Pairs({x}, ys);
      hide Pairs;
      assert (|xs| - 1) * |ys| + |ys| == |xs| * |ys|;
    }
  }

  lemma {:induction false} RowCount(x: Term, ys: set<Term>)
    ensures |Pairs({x}, ys)| == |ys|
  {
    if ys == {} {
      assert Pairs({x}, ys) == {};
    } else {
      var y :| y in ys;
      RowCount(x, ys - {y});
      assert Pairs({x}, ys) == Pairs({x}, ys - {y}) + {Edge(x, y)};
    }
  }

  /** A graph over n terms has at most n * n edges. */
  lemma EdgeCount(g: Graph)
    ensures |g.Keys| <= |Terms(g)| * |Terms(g)|
  {
    var ts := Terms(g);
    PairCount(ts, ts);
    SubsetSize(g.Keys, Pairs(ts, ts));
  }
}
