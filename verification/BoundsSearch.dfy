/** Why the engine's relaxation loops compute what the walks mean, and why adding
    facts never weakens a graph. */
module BoundsSearch {
  import opened Machine
  import opened Primitives
  import opened DifferenceGraph
  import opened BoundsFacts

  // ----- relaxation from one source -----

  /** Every tentative distance is the weight of some walk. */
  ghost predicate Walked(g: Graph, from: Term, dist: map<Term, int>) {
    forall t :: t in dist ==> exists w :: Connects(g, w, from, t) && Weight(g, w) == dist[t]
  }

  /** No walk of at most `k` edges is lighter than the tentative distance. */
  ghost predicate Covers(g: Graph, from: Term, dist: map<Term, int>, k: nat) {
    forall w :: IsWalk(g, w) && Start(w) == from && Length(w) <= k ==> End(w) in dist && dist[End(w)] <= Weight(g, w)
  }

  ghost predicate CoversAll(g: Graph, from: Term, dist: map<Term, int>) {
    forall w :: IsWalk(g, w) && Start(w) == from ==> End(w) in dist && dist[End(w)] <= Weight(g, w)
  }

  /** One pass over the edges in `done`, starting from `before`. */
  ghost predicate Relaxed(g: Graph, done: set<Edge>, before: map<Term, int>, after: map<Term, int>) {
    && (forall t :: t in before ==> t in after && after[t] <= before[t])
    && (forall e :: e in done && e in g && e.from in before ==> e.to in after && after[e.to] <= before[e.from] + g[e])
  }

  lemma CoversStart(g: Graph, from: Term)
    ensures Covers(g, from, map[from := 0], 0)
    ensures Walked(g, from, map[from := 0])
  {
    assert Connects(g, Stop(from), from, from) && Weight(g, Stop(from)) == 0;
    forall w | IsWalk(g, w) && Start(w) == from && Length(w) <= 0 ensures End(w) == from && Weight(g, w) == 0 {
      assert w.Stop?;
    }
  }

  lemma WalkedStep(g: Graph, from: Term, dist: map<Term, int>, e: Edge)
    requires Walked(g, from, dist) && e in g && e.from in dist
    ensures Walked(g, from, dist[e.to := dist[e.from] + g[e]])
  {
    var w :| Connects(g, w, from, e.from) && Weight(g, w) == dist[e.from];
    assert Connects(g, Step(w, e.to), from, e.to) && Weight(g, Step(w, e.to)) == dist[e.from] + g[e];
  }

  lemma CoversStep(g: Graph, from: Term, before: map<Term, int>, after: map<Term, int>, k: nat)
    requires Covers(g, from, before, k) && Relaxed(g, g.Keys, before, after)
    ensures Covers(g, from, after, k + 1)
  {
    forall w | IsWalk(g, w) && Start(w) == from && Length(w) <= k + 1
      ensures End(w) in after && after[End(w)] <= Weight(g, w)
    {
      match w
      case Stop(_) =>
        assert Length(w) <= k;
      case Step(p, t) =>
        assert Edge(End(p), t) in g.Keys;
    }
  }

  /** A pass that changes nothing has found every distance. */
  lemma {:induction false} ClosedCovers(g: Graph, from: Term, dist: map<Term, int>, w: Walk)
    requires Relaxed(g, g.Keys, dist, dist) && from in dist && dist[from] <= 0
    requires IsWalk(g, w) && Start(w) == from
    ensures End(w) in dist && dist[End(w)] <= Weight(g, w)
  {
    match w
    case Stop(_) =>
    case Step(p, t) =>
      ClosedCovers(g, from, dist, p);
      assert Edge(End(p), t) in g.Keys;
  }

  /** Every reachable term has a distance, and no walk is lighter without a negative cycle. */
  ghost predicate Complete(g: Graph, from: Term, dist: map<Term, int>) {
    (forall t :: Reachable(g, from, t) ==> t in dist) && (NoNegativeCycle(g) ==> CoversAll(g, from, dist))
  }

  lemma ClosedComplete(g: Graph, from: Term, dist: map<Term, int>)
    requires Relaxed(g, g.Keys, dist, dist) && from in dist && dist[from] <= 0
    ensures Complete(g, from, dist)
  {
    forall w | IsWalk(g, w) && Start(w) == from ensures End(w) in dist && dist[End(w)] <= Weight(g, w) {
      ClosedCovers(g, from, dist, w);
    }
  }

  lemma EnoughPasses(g: Graph, from: Term, dist: map<Term, int>, k: nat)
    requires Covers(g, from, dist, k) && k >= |Terms(g)|
    ensures Complete(g, from, dist)
  {
    forall t | Reachable(g, from, t) ensures t in dist {
      var w :| Connects(g, w, from, t);
      var s := ShortenReach(g, w);
      SimpleBound(g, s);
    }
    if NoNegativeCycle(g) {
      forall w | IsWalk(g, w) && Start(w) == from ensures End(w) in dist && dist[End(w)] <= Weight(g, w) {
        var s := Shorten(g, w);
        SimpleBound(g, s);
      }
    }
  }

  lemma DistanceMeans(g: Graph, from: Term, to: Term, dist: map<Term, int>)
    requires Walked(g, from, dist) && Complete(g, from, dist)
    ensures to in dist <==> Reachable(g, from, to)
    ensures to in dist ==> exists w :: Connects(g, w, from, to) && Weight(g, w) == dist[to]
    ensures to in dist && NoNegativeCycle(g) ==> forall w :: Connects(g, w, from, to) ==> dist[to] <= Weight(g, w)
  {
  }

  /** Tentative distances after `m` relaxations stay within `m` capped weights. */
  ghost predicate Within(dist: map<Term, int>, m: nat) {
    forall t :: t in dist ==> -(m * CONST_CAP) <= dist[t] <= m * CONST_CAP
  }

  function RelaxStep(dist: map<Term, int>, e: Edge, weight: int): map<Term, int> {
    if e.from in dist && (e.to !in dist || dist[e.from] + weight < dist[e.to]) then dist[e.to := dist[e.from] + weight]
    else dist
  }

  lemma RelaxedNone(g: Graph, before: map<Term, int>)
    ensures Relaxed(g, {}, before, before)
  {
  }

  /** One relaxation: no saturation, and the pass is one edge further. */
  lemma RelaxStepCorrect(f: Facts, from: Term, before: map<Term, int>, dist: map<Term, int>, done: set<Edge>,
      e: Edge, m: nat)
    requires WellFormed(f) && e in f.edges && m < RELAX_CAP
    requires Walked(f.edges, from, dist) && Within(dist, m) && Relaxed(f.edges, done, before, dist)
    ensures var after := RelaxStep(dist, e, f.edges[e]);
      Walked(f.edges, from, after) && Within(after, m + 1) && Relaxed(f.edges, done + {e}, before, after)
    ensures -CONST_CAP <= f.edges[e] <= CONST_CAP
    ensures e.from in dist ==>
      FitsI64(dist[e.from]) && FitsI64(dist[e.from] + f.edges[e]) && dist[e.from] + f.edges[e] < I64_MAX
  {
    hide Walked, WellFormed, Within, Relaxed, Terms;
    EdgeEnds(f, e);
    if e.from in dist { WalkedStep(f.edges, from, dist, e); }
    RelaxStepWithin(dist, e, f.edges[e], m);
    RelaxStepRelaxed(f.edges, before, dist, done, e);
  }

  lemma RelaxStepWithin(dist: map<Term, int>, e: Edge, weight: int, m: nat)
    requires Within(dist, m) && m < RELAX_CAP && -CONST_CAP <= weight <= CONST_CAP
    ensures Within(RelaxStep(dist, e, weight), m + 1)
    ensures e.from in dist ==>
      FitsI64(dist[e.from]) && FitsI64(dist[e.from] + weight) && dist[e.from] + weight < I64_MAX
  {
  }

  lemma RelaxStepRelaxed(g: Graph, before: map<Term, int>, dist: map<Term, int>, done: set<Edge>, e: Edge)
    requires e in g && Relaxed(g, done, before, dist)
    ensures Relaxed(g, done + {e}, before, RelaxStep(dist, e, g[e]))
  {
  }

  /** The pass count times the edge count that both caps allow. */
  const RELAX_CAP: nat := (TERM_CAP + 1) * TERM_CAP * TERM_CAP

  lemma WithinStart(from: Term)
    ensures Within(map[from := 0], 0)
  {
  }

  lemma WithinFits(dist: map<Term, int>, m: nat, t: Term)
    requires Within(dist, m) && m <= RELAX_CAP && t in dist
    ensures FitsI64(dist[t])
  {
  }

  lemma CoversSource(g: Graph, from: Term, dist: map<Term, int>, k: nat)
    requires Covers(g, from, dist, k)
    ensures from in dist && dist[from] <= 0
  {
    assert IsWalk(g, Stop(from)) && Length(Stop(from)) == 0 && Weight(g, Stop(from)) == 0;
  }

  lemma EdgesCapped(f: Facts)
    requires WellFormed(f)
    ensures |Terms(f.edges)| <= TERM_CAP
    ensures |f.edges.Keys| <= TERM_CAP * TERM_CAP
  {
    EdgeCount(f.edges);
    SquareMonotone(|Terms(f.edges)|, TERM_CAP);
  }

  lemma SquareMonotone(a: nat, b: nat)
    requires a <= b
    ensures a * a <= b * b
  {
    assert a * a <= a * b;
    assert a * b <= b * b;
  }

  // ----- intervals -----

  datatype Interval = Interval(lo: int, hi: int)

  type Ranges = map<Term, Interval>

  ghost predicate Justified(g: Graph, r: Ranges) {
    forall t :: t in r ==> AtLeast(g, t, r[t].lo) && AtMost(g, t, r[t].hi)
  }

  ghost predicate CoversHigh(g: Graph, r: Ranges, k: nat) {
    forall w :: IsWalk(g, w) && Start(w) in r && Length(w) <= k ==> r[Start(w)].hi <= MachineHigh(End(w)) + Weight(g, w)
  }

  ghost predicate CoversLow(g: Graph, r: Ranges, k: nat) {
    forall w :: IsWalk(g, w) && End(w) in r && Length(w) <= k ==> r[End(w)].lo >= MachineLow(Start(w)) - Weight(g, w)
  }

  /** No interval that a walk justifies is tighter. */
  ghost predicate Tight(g: Graph, r: Ranges) {
    forall t :: t in r ==>
      && (forall h :: AtMost(g, t, h) ==> r[t].hi <= h)
      && (forall l :: AtLeast(g, t, l) ==> l <= r[t].lo)
  }

  ghost predicate Narrowed(g: Graph, done: set<Edge>, before: Ranges, after: Ranges) {
    && before.Keys == after.Keys
    && (forall t :: t in before ==> after[t].lo >= before[t].lo && after[t].hi <= before[t].hi)
    && (forall e :: e in done && e in g && e.from in before && e.to in before ==>
          after[e.from].hi <= before[e.to].hi + g[e] && after[e.to].lo >= before[e.from].lo - g[e])
  }

  ghost predicate RangesWithin(r: Ranges, m: nat) {
    forall t :: t in r ==>
      && -TWO_64 - (m * CONST_CAP) <= r[t].lo <= TWO_64 + m * CONST_CAP
      && -TWO_64 - (m * CONST_CAP) <= r[t].hi <= TWO_64 + m * CONST_CAP
  }

  lemma NarrowedNone(g: Graph, r: Ranges)
    ensures Narrowed(g, {}, r, r)
  {
  }

  lemma InitialCorrect(g: Graph, r: Ranges)
    requires forall t :: t in r ==> r[t] == MachineInterval(t)
    ensures Justified(g, r) && RangesWithin(r, 0) && CoversHigh(g, r, 0) && CoversLow(g, r, 0)
  {
    forall t | t in r ensures AtLeast(g, t, r[t].lo) && AtMost(g, t, r[t].hi) {
      MachineJustified(g, t);
    }
  }

  lemma CoversFewer(g: Graph, r: Ranges, k: nat)
    requires CoversHigh(g, r, k) && CoversLow(g, r, k)
    ensures CoversHigh(g, r, 0) && CoversLow(g, r, 0)
  {
  }

  lemma RangesWithinMore(r: Ranges, m: nat, n: nat)
    requires RangesWithin(r, m) && m <= n
    ensures RangesWithin(r, n)
  {
  }

  function NarrowStep(r: Ranges, e: Edge, weight: int): Ranges
    requires e.from in r && e.to in r
  {
    var hi := Min(r[e.from].hi, r[e.to].hi + weight);
    var lo := Max(r[e.to].lo, r[e.from].lo - weight);
    r[e.from := Interval(r[e.from].lo, hi)][e.to := Interval(lo, r[e.to].hi)]
  }

  /** One narrowing: both new ends are justified, and the pass is one edge further. */
  lemma NarrowStepCorrect(f: Facts, before: Ranges, r: Ranges, done: set<Edge>, e: Edge, m: nat)
    requires WellFormed(f) && e in f.edges && r.Keys == Terms(f.edges)
    requires Justified(f.edges, r) && RangesWithin(r, m) && Narrowed(f.edges, done, before, r)
    ensures e.from in r && e.to in r && e.from != e.to
    ensures var after := NarrowStep(r, e, f.edges[e]);
      after.Keys == r.Keys && Justified(f.edges, after) && RangesWithin(after, m + 1) &&
      Narrowed(f.edges, done + {e}, before, after)
  {
    hide WellFormed, Terms, Justified, RangesWithin, Narrowed;
    EdgeEnds(f, e);
    NarrowStepJustified(f.edges, r, e);
    NarrowStepWithin(r, e, f.edges[e], m);
    NarrowStepNarrowed(f.edges, before, r, done, e);
    assert NarrowStep(r, e, f.edges[e]).Keys == r.Keys;
  }

  lemma NarrowStepWithin(r: Ranges, e: Edge, weight: int, m: nat)
    requires e.from in r && e.to in r && RangesWithin(r, m) && -CONST_CAP <= weight <= CONST_CAP
    ensures RangesWithin(NarrowStep(r, e, weight), m + 1)
  {
  }

  lemma NarrowStepNarrowed(g: Graph, before: Ranges, r: Ranges, done: set<Edge>, e: Edge)
    requires e in g && e.from in r && e.to in r && e.from != e.to && Narrowed(g, done, before, r)
    ensures Narrowed(g, done + {e}, before, NarrowStep(r, e, g[e]))
  {
    var after := NarrowStep(r, e, g[e]);
    assert after.Keys == r.Keys;
    assert forall t :: t in r ==> after[t].lo >= r[t].lo && after[t].hi <= r[t].hi;
  }

  lemma EdgeEnds(f: Facts, e: Edge)
    requires WellFormed(f) && e in f.edges
    ensures e.from in Terms(f.edges) && e.to in Terms(f.edges) && e.from != e.to
    ensures -CONST_CAP <= f.edges[e] <= CONST_CAP
  {
    assert e in f.edges.Keys;
  }

  lemma NarrowStepJustified(g: Graph, r: Ranges, e: Edge)
    requires e in g && e.from in r && e.to in r && e.from != e.to && Justified(g, r)
    ensures Justified(g, NarrowStep(r, e, g[e]))
  {
    NarrowHigh(g, e, r[e.to].hi);
    NarrowLow(g, e, r[e.from].lo);
    hide AtLeast, AtMost;
  }

  function MachineInterval(t: Term): Interval {
    Interval(MachineLow(t), MachineHigh(t))
  }

  lemma MachineJustified(g: Graph, t: Term)
    ensures AtLeast(g, t, MachineLow(t)) && AtMost(g, t, MachineHigh(t))
  {
    assert IsWalk(g, Stop(t)) && Start(Stop(t)) == t && End(Stop(t)) == t && Weight(g, Stop(t)) == 0;
  }

  /** Splits off the first edge of a walk. */
  lemma {:induction false} Uncons(g: Graph, w: Walk) returns (next: Term, rest: Walk)
    requires IsWalk(g, w) && w.Step?
    ensures Edge(Start(w), next) in g && Connects(g, rest, next, End(w))
    ensures Weight(g, w) == g[Edge(Start(w), next)] + Weight(g, rest)
    ensures Length(w) == Length(rest) + 1
  {
    match w.prefix
    case Stop(_) => next, rest := w.to, Stop(w.to);
    case Step(_, _) =>
      next, rest := Uncons(g, w.prefix);
      rest := Step(rest, w.to);
  }

  lemma NarrowHigh(g: Graph, e: Edge, h: int)
    requires e in g && AtMost(g, e.to, h)
    ensures AtMost(g, e.from, h + g[e])
  {
    var w :| IsWalk(g, w) && Start(w) == e.to && MachineHigh(End(w)) + Weight(g, w) <= h;
    var first := Step(Stop(e.from), e.to);
    assert Edge(End(first.prefix), e.to) == e;
    Joined(g, first, w);
  }

  lemma NarrowLow(g: Graph, e: Edge, l: int)
    requires e in g && AtLeast(g, e.from, l)
    ensures AtLeast(g, e.to, l - g[e])
  {
    var w :| IsWalk(g, w) && End(w) == e.from && MachineLow(Start(w)) - Weight(g, w) >= l;
    var longer := Step(w, e.to);
    assert IsWalk(g, longer) && End(longer) == e.to;
  }

  lemma IntervalStep(g: Graph, before: Ranges, after: Ranges, k: nat)
    requires before.Keys == Terms(g) && Narrowed(g, g.Keys, before, after)
    requires CoversHigh(g, before, k) && CoversLow(g, before, k)
    ensures CoversHigh(g, after, k + 1) && CoversLow(g, after, k + 1)
  {
    forall w | IsWalk(g, w) && Start(w) in after && Length(w) <= k + 1
      ensures after[Start(w)].hi <= MachineHigh(End(w)) + Weight(g, w)
    {
      if w.Step? {
        var next, rest := Uncons(g, w);
        var e := Edge(Start(w), next);
        assert e in g.Keys && e.to in Terms(g);
      } else {
        assert Length(w) <= k;
      }
    }
    forall w | IsWalk(g, w) && End(w) in after && Length(w) <= k + 1
      ensures after[End(w)].lo >= MachineLow(Start(w)) - Weight(g, w)
    {
      match w
      case Stop(_) => assert Length(w) <= k;
      case Step(p, t) =>
        var e := Edge(End(p), t);
        assert e in g.Keys && e.from in Terms(g);
    }
  }

  /** A pass that narrows nothing has found every interval. */
  lemma {:induction false} StableRounds(g: Graph, r: Ranges, k: nat)
    requires r.Keys == Terms(g) && Narrowed(g, g.Keys, r, r)
    requires CoversHigh(g, r, 0) && CoversLow(g, r, 0)
    ensures CoversHigh(g, r, k) && CoversLow(g, r, k)
  {
    if k > 0 {
      StableRounds(g, r, k - 1);
      IntervalStep(g, r, r, k - 1);
    }
  }

  lemma EnoughRounds(g: Graph, r: Ranges, k: nat)
    requires NoNegativeCycle(g) && k >= |Terms(g)|
    requires CoversHigh(g, r, k) && CoversLow(g, r, k)
    ensures Tight(g, r)
  {
    forall t, h | t in r && AtMost(g, t, h) ensures r[t].hi <= h {
      var w :| IsWalk(g, w) && Start(w) == t && MachineHigh(End(w)) + Weight(g, w) <= h;
      var s := Shorten(g, w);
      SimpleBound(g, s);
    }
    forall t, l | t in r && AtLeast(g, t, l) ensures l <= r[t].lo {
      var w :| IsWalk(g, w) && End(w) == t && MachineLow(Start(w)) - Weight(g, w) >= l;
      var s := Shorten(g, w);
      SimpleBound(g, s);
    }
  }

  /** A term without edges keeps its machine limits. */
  lemma IsolatedInterval(g: Graph, t: Term)
    requires t !in Terms(g)
    ensures forall h :: AtMost(g, t, h) <==> MachineHigh(t) <= h
    ensures forall l :: AtLeast(g, t, l) <==> l <= MachineLow(t)
  {
    MachineJustified(g, t);
    forall w | IsWalk(g, w) && w.Step? ensures Start(w) != t && End(w) != t {
      var next, rest := Uncons(g, w);
      assert Edge(Start(w), next) in g.Keys;
      assert Edge(End(w.prefix), w.to) in g.Keys;
    }
  }

  lemma IntervalsWeaken(g: Graph, t: Term)
    ensures forall l, m :: AtLeast(g, t, l) && m <= l ==> AtLeast(g, t, m)
    ensures forall h, m :: AtMost(g, t, h) && m >= h ==> AtMost(g, t, m)
  {
    forall l, m | AtLeast(g, t, l) && m <= l ensures AtLeast(g, t, m) {
      var w :| IsWalk(g, w) && End(w) == t && MachineLow(Start(w)) - Weight(g, w) >= l;
    }
    forall h, m | AtMost(g, t, h) && m >= h ensures AtMost(g, t, m) {
      var w :| IsWalk(g, w) && Start(w) == t && MachineHigh(End(w)) + Weight(g, w) <= h;
    }
  }

  // ----- growth -----

  /** Everything `f` records is recorded at least as tightly by `g`. */
  ghost predicate Grows(f: Facts, g: Facts) {
    forall e :: e in f.edges ==> e in g.edges && g.edges[e] <= f.edges[e]
  }

  lemma GrowsSelf(f: Facts)
    ensures Grows(f, f)
  {
  }

  lemma GrowsTrans(f: Facts, g: Facts, h: Facts)
    requires Grows(f, g) && Grows(g, h)
    ensures Grows(f, h)
  {
  }

  lemma {:induction false} HeavierBefore(f: Facts, g: Facts, w: Walk)
    requires Grows(f, g) && IsWalk(f.edges, w)
    ensures IsWalk(g.edges, w) && Weight(g.edges, w) <= Weight(f.edges, w)
  {
    match w
    case Stop(_) =>
    case Step(p, t) =>
      HeavierBefore(f, g, p);
      assert Edge(End(p), t) in f.edges;
  }

  /** A consistent graph was consistent before it grew. */
  lemma ConsistentBefore(f: Facts, g: Facts)
    requires Grows(f, g) && Consistent(g)
    ensures Consistent(f)
  {
    forall w | IsWalk(f.edges, w) && Start(w) == End(w) ensures Weight(f.edges, w) >= 0 {
      HeavierBefore(f, g, w);
    }
  }

  lemma AddEdgeGrows(f: Facts, from: Term, to: Term, c: int)
    ensures Grows(f, AddEdge(f, from, to, c))
  {
  }

  lemma AddEqGrows(f: Facts, a: Term, b: Term, c: int)
    ensures Grows(f, AddEq(f, a, b, c))
  {
    AddEdgeGrows(f, a, b, c);
    AddEdgeGrows(AddEdge(f, a, b, c), b, a, -c);
  }

  lemma AddOffsetGrows(f: Facts, local: nat, x: nat, offset: int)
    ensures Grows(f, AddOffset(f, local, x, offset))
  {
    hide AddEq, OffsetFits;
    AddEqGrows(f, Int(local), Int(x), offset);
  }

  lemma SubtractVarsGrows(f: Facts, local: nat, x: nat, y: nat)
    ensures Grows(f, SubtractVars(f, local, x, y))
  {
    hide AddEq, DifferenceFits;
    AddEqGrows(f, Int(local), Zero, 0);
  }

  lemma AddSubGrows(f: Facts, local: nat, args: seq<Atom>, subtract: bool)
    ensures Grows(f, AddSub(f, local, args, subtract))
  {
    forall t, c ensures Grows(f, AddEq(f, Int(local), t, c)) {
      AddEqGrows(f, Int(local), t, c);
    }
  }

  lemma MaskGrows(f: Facts, local: nat, args: seq<Atom>)
    ensures Grows(f, Mask(f, local, args))
  {
    var g := SetGe(f, Int(local), 0);
    AddEdgeGrows(f, Zero, Int(local), 0);
    forall m ensures Grows(f, MaskedBy(f, local, m)) {
      AddEdgeGrows(g, Int(local), m, 0);
    }
  }

  lemma RepeatGrows(f: Facts, local: nat, args: seq<Atom>)
    ensures Grows(f, Repeat(f, local, args))
    ensures |args| > 0 && args[0].Var? ==>
      Grows(AddEdge(SetGe(f, Len(local), 0), Int(args[0].local), Len(local), 0), Repeat(f, local, args))
  {
    var g := SetGe(f, Len(local), 0);
    AddEdgeGrows(f, Zero, Len(local), 0);
    if |args| > 0 {
      match args[0]
      case Num(count) => AddEqGrows(g, Len(local), Zero, Max(count, 0));
      case Var(count) =>
        var h := AddEdge(g, Int(count), Len(local), 0);
        AddEdgeGrows(g, Int(count), Len(local), 0);
        AddEqGrows(h, Len(local), Int(count), 0);
      case OtherLit =>
    }
  }

  lemma RemGrows(f: Facts, local: nat, args: seq<Atom>)
    ensures Grows(f, Rem(f, local, args))
  {
    hide AddEdge;
    AddEdgeGrows(f, Zero, Int(local), 0);
  }

  lemma ReadLengthGrows(f: Facts, local: nat, args: seq<Atom>)
    ensures Grows(f, ReadLength(f, local, args))
  {
    hide AddEq, AddEdge;
    if IsVar(args) {
      AddEqGrows(f, Int(local), Len(args[0].local), 0);
      AddEdgeGrows(AddEq(f, Int(local), Len(args[0].local), 0), Zero, Int(local), 0);
    }
  }

  lemma PushedGrows(f: Facts, local: nat, args: seq<Atom>)
    ensures Grows(f, Pushed(f, local, args))
  {
    hide AddEq, AddEdge;
    if IsVar(args) {
      AddEqGrows(f, Len(local), Len(args[0].local), 1);
      AddEdgeGrows(AddEq(f, Len(local), Len(args[0].local), 1), Zero, Len(local), 0);
    } else {
      AddEdgeGrows(f, Zero, Len(local), 0);
    }
  }

  lemma SameLengthGrows(f: Facts, local: nat, args: seq<Atom>)
    ensures Grows(f, SameLength(f, local, args))
  {
    hide AddEq;
    if IsVar(args) { AddEqGrows(f, Len(local), Len(args[0].local), 0); }
  }

  lemma ComparedGrows(f: Facts, local: nat, op: Prim, args: seq<Atom>)
    ensures Grows(f, Compared(f, local, op, args))
  {
  }

  lemma OpGrows(f: Facts, local: nat, op: Prim, args: seq<Atom>)
    ensures Grows(f, OpFacts(f, local, op, args))
  {
    hide AddSub, Mask, Rem, Repeat, ReadLength, Pushed, SameLength, Compared, AddEq, Grows;
    GrowsSelf(f);
    match op
    case IntAdd => AddSubGrows(f, local, args, false);
    case IntSub => AddSubGrows(f, local, args, true);
    case IntAnd => MaskGrows(f, local, args);
    case IntRem => RemGrows(f, local, args);
    case ArrayLength => ReadLengthGrows(f, local, args);
    case ArrayWithCapacity => AddEqGrows(f, Len(local), Zero, 0);
    case ArrayRepeat => RepeatGrows(f, local, args);
    case ArrayPush | ArrayPushReserved => PushedGrows(f, local, args);
    case ArraySet | ArrayUnique | ArrayPut => SameLengthGrows(f, local, args);
    case IntLt | IntLe | IntGt | IntGe | Eq => ComparedGrows(f, local, op, args);
    case _ =>
  }

  lemma AccessGrows(f: Facts, op: Prim, args: seq<Atom>)
    ensures Grows(f, AccessFacts(f, op, args))
  {
    hide AddEdge, Grows, AtomTermOff;
    GrowsSelf(f);
    if ChecksIndex(op) && |args| > 1 && args[0].Var? && AtomTermOff(args[1]).Some? {
      var (index, offset) := AtomTermOff(args[1]).value;
      var g := AddEdge(f, Zero, index, offset);
      AddEdgeGrows(f, Zero, index, offset);
      AddEdgeGrows(g, index, Len(args[0].local), -1 - (offset as int));
      GrowsTrans(f, g, AddEdge(g, index, Len(args[0].local), -1 - (offset as int)));
    }
  }

  lemma PrimGrows(f: Facts, local: nat, op: Prim, args: seq<Atom>)
    ensures Grows(OpFacts(f, local, op, args), TransferPrim(f, local, op, args))
    ensures Grows(f, TransferPrim(f, local, op, args))
  {
    var g := OpFacts(f, local, op, args);
    var h := AccessFacts(g, op, args);
    OpGrows(f, local, op, args);
    AccessGrows(g, op, args);
    AddEdgeGrows(h, Zero, Len(local), 0);
  }

  lemma RefineNeGrows(f: Facts, x: Term)
    ensures var g := if Knows(f, Zero, x, 0) then AddEdge(f, Zero, x, -1) else f;
      Grows(f, g) && Grows(g, if Knows(g, x, Zero, 0) then AddEdge(g, x, Zero, -1) else g)
  {
    AddEdgeGrows(f, Zero, x, -1);
    var g := if Knows(f, Zero, x, 0) then AddEdge(f, Zero, x, -1) else f;
    AddEdgeGrows(g, x, Zero, -1);
  }

  // ----- the shape every state keeps -----

  lemma TermsAfter(g: Graph, e: Edge, c: int)
    ensures Terms(g[e := c]) == Terms(g) + {e.from, e.to}
  {
    var after := g[e := c];
    assert after.Keys == g.Keys + {e};
    forall t ensures t in Terms(after) <==> t in Terms(g) + {e.from, e.to} {
      if t in Terms(g) {
        var d :| d in g.Keys && (d.from == t || d.to == t);
        assert d in after.Keys;
      }
      if t == e.from || t == e.to {
        assert e in after.Keys;
      }
    }
  }

  lemma SizeWith(ts: set<Term>, a: Term, b: Term)
    requires a != b
    ensures |ts + {a, b}| == |ts| + (if a in ts then 0 else 1) + (if b in ts then 0 else 1)
  {
    if a in ts && b in ts {
      assert ts + {a, b} == ts;
    } else if a in ts {
      assert ts + {a, b} == ts + {b};
    } else if b in ts {
      assert ts + {a, b} == ts + {a};
    } else {
      assert ts + {a, b} == ts + {a} + {b};
    }
  }

  lemma SameEdges(f: Facts, g: Facts)
    requires WellFormed(f) && f.edges == g.edges
    ensures WellFormed(g)
  {
  }

  lemma AddEdgeWellFormed(f: Facts, from: Term, to: Term, c: int)
    requires WellFormed(f)
    ensures WellFormed(AddEdge(f, from, to, c))
  {
    hide Terms;
    var e := Edge(from, to);
    var r := AddEdge(f, from, to, c);
    if r.edges != f.edges {
      TermsAfter(f.edges, e, r.edges[e]);
      SizeWith(Terms(f.edges), from, to);
    }
  }
}
