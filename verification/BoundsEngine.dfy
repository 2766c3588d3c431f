/** The bounds engine: an object whose fact tables the transfer functions update in
    place, with its relaxation searches. Hash-map iteration is an arbitrary choice. */
module BoundsEngine {
  import opened Machine
  import opened Primitives
  import opened DifferenceGraph
  import opened BoundsFacts
  import opened BoundsSearch

  class Bounds {
    var edges: Graph
    var conds: map<nat, Cond>
    var subs: map<nat, (Term, Term)>
    var callResults: map<nat, CallResult>
    var poisoned: bool

    ghost function State(): Facts
      reads this
    {
      Facts(edges, conds, subs, callResults, poisoned)
    }

    ghost predicate Valid()
      reads this
    {
      WellFormed(State())
    }

    constructor ()
      ensures Valid() && State() == NO_FACTS
    {
      edges, conds, subs, callResults, poisoned := map[], map[], map[], map[], false;
    }

    /** The copy a branch is analysed with. */
    constructor Clone(other: Bounds)
      requires other.Valid()
      ensures Valid() && State() == other.State()
    {
      edges, conds, subs := other.edges, other.conds, other.subs;
      callResults, poisoned := other.callResults, other.poisoned;
    }

    // ----- queries -----

    method TermCount() returns (n: nat)
      ensures n == |Terms(edges)|
    {
      var seen: set<Term> := {};
      var todo := edges.Keys;
      while todo != {}
        invariant todo <= edges.Keys
        invariant seen == (set e | e in edges.Keys - todo :: e.from) + (set e | e in edges.Keys - todo :: e.to)
        decreases |todo|
      {
        var e :| e in todo;
        ghost var done := edges.Keys - todo;
        todo := todo - {e};
        seen := seen + {e.from, e.to};
        assert edges.Keys - todo == done + {e};
      }
      assert edges.Keys - todo == edges.Keys;
      n := |seen|;
    }

    method HasTerm(t: Term) returns (r: bool)
      ensures r <==> t in Terms(edges)
    {
      r := exists e :: e in edges.Keys && (e.from == t || e.to == t);
    }

    /** One pass of relaxations. `m` counts the relaxations so far: with both caps
        in force no sum leaves the 64-bit range, so saturation never alters one. */
    method RelaxPass(from: Term, before: map<Term, int>, ghost m: nat) returns (dist: map<Term, int>, changed: bool)
      requires Valid() && m + |edges.Keys| <= RELAX_CAP
      requires Walked(edges, from, before) && Within(before, m)
      ensures Walked(edges, from, dist) && Within(dist, m + |edges.Keys|)
      ensures Relaxed(edges, edges.Keys, before, dist)
      ensures !changed ==> dist == before
    {
      hide Walked, Within, Relaxed, WellFormed;
      dist, changed := before, false;
      var todo := edges.Keys;
      ghost var done: set<Edge> := {};
      RelaxedNone(edges, before);
      while todo != {}
        invariant done + todo == edges.Keys && done !! todo
        invariant Walked(edges, from, dist) && Within(dist, m + |done|)
        invariant Relaxed(edges, done, before, dist)
        invariant !changed ==> dist == before
        decreases |todo|
      {
        var e :| e in todo;
        assert |edges.Keys| == |done| + |todo|;
        RelaxStepCorrect(State(), from, before, dist, done, e, m + |done|);
        todo, done := todo - {e}, done + {e};
        if e.from in dist {
          var nd := SaturatingAdd(dist[e.from], edges[e]);
          var entry := if e.to in dist then dist[e.to] else I64_MAX;
          if nd < entry {
            dist, changed := dist[e.to := nd], true;
          }
        }
      }
      assert done == edges.Keys;
    }

    /** Passes until nothing changes, or one more than there are terms. */
    method Distances(from: Term) returns (dist: map<Term, int>)
      requires Valid()
      ensures Walked(edges, from, dist) && Complete(edges, from, dist)
      ensures forall t :: t in dist ==> FitsI64(dist[t])
    {
      hide WellFormed, Terms, Walked, Within, Covers, Relaxed, Complete;
      dist := map[from := 0];
      var count := TermCount();
      var n := count + 1;
      CoversStart(edges, from);
      WithinStart(from);
      EdgesCapped(State());
      ghost var m: nat := 0;
      ghost var complete := false;
      var round := 0;
      while round < n
        invariant 0 <= round <= n && m <= round * (TERM_CAP * TERM_CAP)
        invariant Walked(edges, from, dist) && Within(dist, m) && Covers(edges, from, dist, round)
      {
        var next, changed := RelaxPass(from, dist, m);
        CoversStep(edges, from, dist, next, round);
        CoversSource(edges, from, next, round + 1);
        m := m + |edges.Keys|;
        if !changed {
          complete := true;
          break;
        }
        dist := next;
        round := round + 1;
      }
      if complete { ClosedComplete(edges, from, dist); } else { EnoughPasses(edges, from, dist, n); }
      forall t | t in dist ensures FitsI64(dist[t]) { WithinFits(dist, m, t); }
    }

    /** The least weight of a walk, exact unless the graph has a negative cycle. */
    method Shortest(from: Term, to: Term) returns (r: Option<I64>)
      requires Valid()
      ensures from == to ==> r == Some(0)
      ensures from != to && poisoned ==> r == None
      ensures from != to && !poisoned ==> (r.Some? <==> Reachable(edges, from, to))
      ensures from != to && r.Some? ==> exists w :: Connects(edges, w, from, to) && Weight(edges, w) == r.value
      ensures from != to && r.Some? && NoNegativeCycle(edges) ==>
        forall w :: Connects(edges, w, from, to) ==> r.value <= Weight(edges, w)
    {
      if from == to {
        return Some(0);
      }
      if poisoned {
        return None;
      }
      var dist := Distances(from);
      DistanceMeans(edges, from, to, dist);
      r := if to in dist then Some(dist[to]) else None;
    }

    method EntailsLe(a: Term, b: Term, c: I64) returns (r: bool)
      requires Valid()
      ensures r ==> Knows(State(), a, b, c)
      ensures Consistent(State()) ==> (r <==> Knows(State(), a, b, c))
    {
      var d := Shortest(a, b);
      r := d.Some? && d.value <= c;
    }

    /** Both ends that one edge narrows. */
    method NarrowEdge(before: Ranges, e: Edge) returns (ranges: Ranges, changed: bool)
      requires e in edges && e.from in before && e.to in before && e.from != e.to
      ensures ranges == NarrowStep(before, e, edges[e]) && (!changed ==> ranges == before)
    {
      ranges, changed := before, false;
      var Interval(fromLo, fromHi) := before[e.from];
      var Interval(toLo, toHi) := before[e.to];
      var hi := Min(fromHi, toHi + edges[e]);
      var lo := Max(toLo, fromLo - edges[e]);
      if hi < fromHi {
        ranges, changed := ranges[e.from := Interval(fromLo, hi)], true;
      }
      if lo > toLo {
        ranges, changed := ranges[e.to := Interval(lo, toHi)], true;
      }
    }

    method NarrowPass(before: Ranges, ghost m: nat) returns (ranges: Ranges, changed: bool)
      requires Valid() && before.Keys == Terms(edges)
      requires Justified(edges, before) && RangesWithin(before, m)
      ensures Justified(edges, ranges) && RangesWithin(ranges, m + |edges.Keys|)
      ensures Narrowed(edges, edges.Keys, before, ranges) && ranges.Keys == Terms(edges)
      ensures !changed ==> ranges == before
    {
      hide Justified, RangesWithin, Narrowed, WellFormed, Terms;
      ranges, changed := before, false;
      var todo := edges.Keys;
      ghost var done: set<Edge> := {};
      NarrowedNone(edges, before);
      while todo != {}
        invariant done + todo == edges.Keys && done !! todo && ranges.Keys == Terms(edges)
        invariant Justified(edges, ranges) && RangesWithin(ranges, m + |done|)
        invariant Narrowed(edges, done, before, ranges)
        invariant !changed ==> ranges == before
        decreases |todo|
      {
        var e :| e in todo;
        NarrowStepCorrect(State(), before, ranges, done, e, m + |done|);
        todo, done := todo - {e}, done + {e};
        var moved;
        ranges, moved := NarrowEdge(ranges, e);
        changed := changed || moved;
      }
      assert done == edges.Keys;
    }

    method InitialRanges() returns (ranges: Ranges)
      ensures ranges.Keys == Terms(edges)
      ensures forall t :: t in ranges ==> ranges[t] == MachineInterval(t)
    {
      hide MachineInterval;
      ranges := map[];
      var todo := edges.Keys;
      while todo != {}
        invariant todo <= edges.Keys
        invariant ranges.Keys == (set e | e in edges.Keys - todo :: e.from) + (set e | e in edges.Keys - todo :: e.to)
        invariant forall t :: t in ranges ==> ranges[t] == MachineInterval(t)
        decreases |todo|
      {
        var e :| e in todo;
        ghost var done := edges.Keys - todo;
        todo := todo - {e};
        if e.from !in ranges { ranges := ranges[e.from := MachineInterval(e.from)]; }
        if e.to !in ranges { ranges := ranges[e.to := MachineInterval(e.to)]; }
        assert edges.Keys - todo == done + {e};
      }
      assert edges.Keys - todo == edges.Keys;
    }

    /** Absolute intervals: each end comes from a walk to a machine limit, and in a
        graph without negative cycles no walk gives a tighter one. The magnitudes
        stay far inside the 128-bit numbers they are computed in. */
    method Intervals() returns (ranges: Ranges)
      requires Valid()
      ensures ranges.Keys == Terms(edges)
      ensures Justified(edges, ranges)
      ensures NoNegativeCycle(edges) ==> Tight(edges, ranges)
      ensures RangesWithin(ranges, RELAX_CAP)
    {
      hide Justified, RangesWithin, Narrowed, CoversHigh, CoversLow, Tight, WellFormed, Terms;
      ranges := InitialRanges();
      EdgesCapped(State());
      InitialCorrect(edges, ranges);
      var n := |ranges|;
      assert |ranges| == |ranges.Keys|;
      ghost var m: nat := 0;
      ghost var complete := false;
      var round := 0;
      while round < n
        invariant 0 <= round <= n && m <= round * (TERM_CAP * TERM_CAP)
        invariant ranges.Keys == Terms(edges)
        invariant Justified(edges, ranges) && RangesWithin(ranges, m)
        invariant CoversHigh(edges, ranges, round) && CoversLow(edges, ranges, round)
      {
        var next, changed := NarrowPass(ranges, m);
        IntervalStep(edges, ranges, next, round);
        if !changed {
          complete := true;
          break;
        }
        m := m + |edges.Keys|;
        ranges := next;
        round := round + 1;
      }
      if complete {
        CoversFewer(edges, ranges, round);
        StableRounds(edges, ranges, n);
      }
      if NoNegativeCycle(edges) {
        EnoughRounds(edges, ranges, n);
      }
      RangesWithinMore(ranges, m, RELAX_CAP);
    }

    method IntervalOf(t: Term) returns (i: Interval)
      requires Valid()
      ensures AtLeast(edges, t, i.lo) && AtMost(edges, t, i.hi)
      ensures Consistent(State()) ==> forall l :: AtLeast(edges, t, l) <==> l <= i.lo
      ensures Consistent(State()) ==> forall h :: AtMost(edges, t, h) <==> i.hi <= h
    {
      var ranges := Intervals();
      i := if t in ranges then ranges[t] else MachineInterval(t);
      MachineJustified(edges, t);
      IntervalsWeaken(edges, t);
      if t !in ranges {
        IsolatedInterval(edges, t);
      }
    }

    method OffsetDoesNotWrap(t: Term, offset: I64) returns (r: bool)
      requires Valid()
      ensures r ==> OffsetFits(edges, t, offset)
      ensures Consistent(State()) ==> (r <==> OffsetFits(edges, t, offset))
    {
      if offset == 0 {
        return true;
      }
      var i := IntervalOf(t);
      IntervalsWeaken(edges, t);
      r := i.lo + offset >= I64_MIN && i.hi + offset <= I64_MAX;
    }

    method SubtractionDoesNotWrap(a: Term, b: Term) returns (r: bool)
      requires Valid()
      ensures r ==> DifferenceFits(edges, a, b)
      ensures Consistent(State()) ==> (r <==> DifferenceFits(edges, a, b))
    {
      var i := IntervalOf(a);
      var j := IntervalOf(b);
      r := i.lo - j.hi >= I64_MIN && i.hi - j.lo <= I64_MAX;
    }

    /** Whether an integer atom lies in an inclusive interval. */
    method IntegerInRange(value: Atom, minimum: I64, maximum: I64) returns (r: bool)
      requires Valid()
      ensures poisoned || minimum > maximum || value.OtherLit? ==> !r
      ensures !poisoned && minimum <= maximum && value.Num? ==> (r <==> minimum <= value.n <= maximum)
      ensures r && value.Var? ==>
        AtLeast(edges, Int(value.local), minimum) && AtMost(edges, Int(value.local), maximum)
      ensures !poisoned && minimum <= maximum && value.Var? && Consistent(State()) ==>
        (r <==> InRange(edges, Int(value.local), minimum, maximum))
    {
      if poisoned || minimum > maximum {
        return false;
      }
      match value
      case Num(n) => r := minimum <= n && n <= maximum;
      case Var(local) =>
        var term := Int(local);
        var known := HasTerm(term);
        if !known {
          return false;
        }
        var i := IntervalOf(term);
        IntervalsWeaken(edges, term);
        r := i.lo <= i.hi && i.lo >= minimum && i.hi <= maximum;
        if Consistent(State()) {
          assert EmptyInterval(edges, term) <==> i.lo > i.hi;
        }
      case OtherLit => r := false;
    }

    /** Whether the bounds check of `index` against the array `buffer` may go. */
    method IndexInBounds(buffer: nat, index: Atom) returns (r: bool)
      requires Valid()
      ensures r ==> IndexKnown(State(), buffer, index)
      ensures Consistent(State()) ==> (r <==> IndexKnown(State(), buffer, index))
    {
      if poisoned {
        return false;
      }
      match index
      case Var(i) =>
        var low := EntailsLe(Zero, Int(i), 0);
        var high := EntailsLe(Int(i), Len(buffer), -1);
        r := low && high;
      case Num(n) =>
        if n >= 0 && n < I64_MAX {
          r := EntailsLe(Zero, Len(buffer), -(n + 1));
        } else {
          r := false;
        }
      case OtherLit => r := false;
    }

    // ----- updates -----

    method AddEdge(from: Term, to: Term, c: int)
      requires Valid()
      modifies this
      ensures Valid() && State() == BoundsFacts.AddEdge(old(State()), from, to, c)
    {
      hide WellFormed, Terms;
      AddEdgeWellFormed(State(), from, to, c);
      if poisoned || from == to {
        return;
      }
      if !(-CONST_CAP <= c <= CONST_CAP) {
        return;
      }
      var hasFrom := HasTerm(from);
      var hasTo := HasTerm(to);
      var newTerms := (if hasFrom then 0 else 1) + (if hasTo then 0 else 1);
      var count := TermCount();
      if newTerms > 0 && count + newTerms > TERM_CAP {
        poisoned := true;
        return;
      }
      var e := Edge(from, to);
      var slot := if e in edges then edges[e] else c;
      edges := edges[e := if c < slot then c else slot];
    }

    method AddEq(a: Term, b: Term, c: int)
      requires Valid()
      modifies this
      ensures Valid() && State() == BoundsFacts.AddEq(old(State()), a, b, c)
    {
      hide BoundsFacts.AddEdge;
      hide WellFormed;
      AddEdge(a, b, c);
      AddEdge(b, a, -c);
    }

    method SetConst(t: Term, n: int)
      requires Valid()
      modifies this
      ensures Valid() && State() == BoundsFacts.SetConst(old(State()), t, n)
    {
      hide BoundsFacts.AddEdge;
      hide WellFormed;
      AddEq(t, Zero, n);
    }

    method SetGe(t: Term, n: int)
      requires Valid()
      modifies this
      ensures Valid() && State() == BoundsFacts.SetGe(old(State()), t, n)
    {
      hide BoundsFacts.AddEdge;
      hide WellFormed;
      AddEdge(Zero, t, -n);
    }

    method TransferOffset(local: nat, x: nat, offset: int)
      requires Valid()
      modifies this
      ensures Valid()
      ensures Consistent(AddOffset(old(State()), local, x, offset)) ==>
        State() == AddOffset(old(State()), local, x, offset)
    {
      hide BoundsFacts.AddEq, OffsetFits, Consistent, WellFormed, Grows;
      AddOffsetGrows(State(), local, x, offset);
      if Consistent(AddOffset(State(), local, x, offset)) {
        ConsistentBefore(State(), AddOffset(State(), local, x, offset));
      }
      var checked := TryFromI128(offset);
      if checked.Some? {
        var fits := OffsetDoesNotWrap(Int(x), checked.value);
        if fits { AddEq(Int(local), Int(x), offset); }
      }
    }

    method TransferDifference(local: nat, x: nat, y: nat)
      requires Valid()
      modifies this
      ensures Valid()
      ensures Consistent(SubtractVars(old(State()), local, x, y)) ==>
        State() == SubtractVars(old(State()), local, x, y)
    {
      hide BoundsFacts.AddEq, DifferenceFits, Consistent, WellFormed, Grows;
      SubtractVarsGrows(State(), local, x, y);
      if Consistent(SubtractVars(State(), local, x, y)) {
        ConsistentBefore(State(), SubtractVars(State(), local, x, y));
      }
      if x == y {
        SetConst(Int(local), 0);
      } else {
        var fits := SubtractionDoesNotWrap(Int(x), Int(y));
        if fits {
          subs := subs[local := (Int(x), Int(y))];
          SameEdges(old(State()), State());
        }
      }
    }

    method TransferAddSub(local: nat, args: seq<Atom>, subtract: bool)
      requires Valid()
      modifies this
      ensures Valid()
      ensures Consistent(AddSub(old(State()), local, args, subtract)) ==>
        State() == AddSub(old(State()), local, args, subtract)
    {
      hide BoundsFacts.AddEq, AddOffset, SubtractVars, Consistent, WellFormed, Wrap;
      if |args| < 2 {
        return;
      }
      match (args[0], args[1])
      case (Var(x), Num(k)) => TransferOffset(local, x, if subtract then 0 - k else k);
      case (Num(k), Var(x)) => if !subtract { TransferOffset(local, x, k); }
      case (Num(p), Num(q)) => SetConst(Int(local), if subtract then Wrap(p - q) else Wrap(p + q));
      case (Var(x), Var(y)) => if subtract { TransferDifference(local, x, y); }
      case _ =>
    }

    method MaskUsable(mask: Atom) returns (r: bool)
      requires Valid()
      ensures r ==> UsableMask(State(), mask)
      ensures Consistent(State()) ==> (r <==> UsableMask(State(), mask))
    {
      var m := AtomTerm(mask);
      if m.None? {
        return false;
      }
      r := EntailsLe(Zero, m.value, 0);
    }

    method TransferMask(local: nat, args: seq<Atom>)
      requires Valid()
      modifies this
      ensures Valid()
      ensures Consistent(Mask(old(State()), local, args)) ==> State() == Mask(old(State()), local, args)
    {
      hide BoundsFacts.AddEdge;
      hide WellFormed;
      MaskGrows(State(), local, args);
      if Consistent(Mask(State(), local, args)) {
        ConsistentBefore(State(), Mask(State(), local, args));
      }
      if |args| < 2 {
        return;
      }
      var second := MaskUsable(args[1]);
      if second {
        SetGe(Int(local), 0);
        AddEdge(Int(local), AtomTerm(args[1]).value, 0);
        return;
      }
      var first := MaskUsable(args[0]);
      if first {
        SetGe(Int(local), 0);
        AddEdge(Int(local), AtomTerm(args[0]).value, 0);
      }
    }

    method TransferRem(local: nat, args: seq<Atom>)
      requires Valid()
      modifies this
      ensures Valid()
      ensures Consistent(Rem(old(State()), local, args)) ==> State() == Rem(old(State()), local, args)
    {
      hide BoundsFacts.AddEdge;
      hide WellFormed;
      AddEdgeGrows(State(), Zero, Int(local), 0);
      if Consistent(Rem(State(), local, args)) {
        ConsistentBefore(State(), Rem(State(), local, args));
      }
      if |args| > 0 {
        var usable := MaskUsable(args[0]);
        if usable { SetGe(Int(local), 0); }
      }
    }

    method TransferRepeat(local: nat, args: seq<Atom>)
      requires Valid()
      modifies this
      ensures Valid()
      ensures Consistent(Repeat(old(State()), local, args)) ==> State() == Repeat(old(State()), local, args)
    {
      hide BoundsFacts.AddEdge;
      hide WellFormed;
      ghost var f := State();
      RepeatGrows(f, local, args);
      SetGe(Len(local), 0);
      if |args| > 0 {
        match args[0]
        case Num(count) => SetConst(Len(local), Max(count, 0));
        case Var(count) =>
          AddEdge(Int(count), Len(local), 0);
          if Consistent(Repeat(f, local, args)) {
            ConsistentBefore(State(), Repeat(f, local, args));
          }
          var nonneg := EntailsLe(Zero, Int(count), 0);
          if nonneg { AddEq(Len(local), Int(count), 0); }
        case OtherLit =>
      }
    }

    method TransferLength(local: nat, args: seq<Atom>)
      requires Valid()
      modifies this
      ensures Valid() && State() == ReadLength(old(State()), local, args)
    {
      hide BoundsFacts.AddEq, BoundsFacts.SetGe, WellFormed;
      if IsVar(args) {
        AddEq(Int(local), Len(args[0].local), 0);
        SetGe(Int(local), 0);
      }
    }

    method TransferPush(local: nat, args: seq<Atom>)
      requires Valid()
      modifies this
      ensures Valid() && State() == Pushed(old(State()), local, args)
    {
      hide BoundsFacts.AddEq, BoundsFacts.SetGe, WellFormed;
      if IsVar(args) { AddEq(Len(local), Len(args[0].local), 1); }
      SetGe(Len(local), 0);
    }

    method TransferSameLength(local: nat, args: seq<Atom>)
      requires Valid()
      modifies this
      ensures Valid() && State() == SameLength(old(State()), local, args)
    {
      hide BoundsFacts.AddEq, WellFormed;
      if IsVar(args) { AddEq(Len(local), Len(args[0].local), 0); }
    }

    method TransferCompared(local: nat, op: Prim, args: seq<Atom>)
      requires Valid()
      modifies this
      ensures Valid() && State() == Compared(old(State()), local, op, args)
    {
      hide AtomTermOff, WellFormed;
      if |args| >= 2 {
        var l, r := AtomTermOff(args[0]), AtomTermOff(args[1]);
        if l.Some? && r.Some? {
          conds := conds[local := Cond(op, l.value.0, l.value.1, r.value.0, r.value.1)];
          SameEdges(old(State()), State());
        }
      }
    }

    method TransferOp(local: nat, op: Prim, args: seq<Atom>)
      requires Valid()
      modifies this
      ensures Valid()
      ensures Consistent(OpFacts(old(State()), local, op, args)) ==> State() == OpFacts(old(State()), local, op, args)
    {
      hide AddSub, Mask, Rem, Repeat, ReadLength, Pushed, SameLength, Compared, BoundsFacts.SetConst, Consistent,
        Valid, State;
      match op
      case IntAdd => TransferAddSub(local, args, false);
      case IntSub => TransferAddSub(local, args, true);
      case IntAnd => TransferMask(local, args);
      case IntRem => TransferRem(local, args);
      case ArrayLength => TransferLength(local, args);
      case ArrayWithCapacity => SetConst(Len(local), 0);
      case ArrayRepeat => TransferRepeat(local, args);
      case ArrayPush | ArrayPushReserved => TransferPush(local, args);
      case ArraySet | ArrayUnique | ArrayPut => TransferSameLength(local, args);
      case IntLt | IntLe | IntGt | IntGe | Eq => TransferCompared(local, op, args);
      case _ =>
    }

    method TransferAccess(op: Prim, args: seq<Atom>)
      requires Valid()
      modifies this
      ensures Valid() && State() == AccessFacts(old(State()), op, args)
    {
      hide BoundsFacts.AddEdge, WellFormed;
      if (op == ArrayGet || op == ArrayPeek || op == ArraySet) && |args| > 1 && args[0].Var? {
        var operand := AtomTermOff(args[1]);
        if operand.Some? {
          var (index, offset) := operand.value;
          AddEdge(Zero, index, offset);
          var negative := CheckedNeg(offset);
          if negative.Some? {
            var upper := CheckedSub(negative.value, 1);
            if upper.Some? {
              AddEdge(index, Len(args[0].local), upper.value);
            }
          }
        }
      }
    }

    method TransferPrim(local: nat, op: Prim, args: seq<Atom>)
      requires Valid()
      modifies this
      ensures Valid()
      ensures Consistent(BoundsFacts.TransferPrim(old(State()), local, op, args)) ==>
        State() == BoundsFacts.TransferPrim(old(State()), local, op, args)
    {
      hide BoundsFacts.AddEdge, WellFormed, OpFacts, AccessFacts, Consistent, Grows;
      ghost var f := State();
      PrimGrows(f, local, op, args);
      if Consistent(BoundsFacts.TransferPrim(f, local, op, args)) {
        ConsistentBefore(OpFacts(f, local, op, args), BoundsFacts.TransferPrim(f, local, op, args));
      }
      TransferOp(local, op, args);
      TransferAccess(op, args);
      SetGe(Len(local), 0);
    }

    /** `local = value` after the value was computed. */
    method TransferLet(local: nat, value: Value)
      requires Valid()
      modifies this
      ensures Valid()
      ensures Consistent(BoundsFacts.TransferLet(old(State()), local, value)) ==>
        State() == BoundsFacts.TransferLet(old(State()), local, value)
    {
      hide BoundsFacts.AddEdge;
      hide WellFormed;
      match Uncounted(value)
      case Operand(Num(n)) => SetConst(Int(local), n);
      case Operand(Var(x)) =>
        AddEq(Int(local), Int(x), 0);
        AddEq(Len(local), Len(x), 0);
      case Apply(op, args) => TransferPrim(local, op, args);
      case Project(Var(b), Some(k)) => TransferResultField(local, b, k);
      case _ =>
    }

    method RefineNotEqual(lhs: Term, rhs: Term)
      requires Valid()
      modifies this
      ensures Valid()
      ensures Consistent(RefineNe(old(State()), lhs, rhs)) ==> State() == RefineNe(old(State()), lhs, rhs)
    {
      hide BoundsFacts.AddEdge;
      hide WellFormed;
      if lhs != Zero && rhs != Zero {
        return;
      }
      var x := if lhs == Zero then rhs else lhs;
      if x == Zero {
        return;
      }
      ghost var f := State();
      RefineNeGrows(f, x);
      ghost var g := if Knows(f, Zero, x, 0) then BoundsFacts.AddEdge(f, Zero, x, -1) else f;
      if Consistent(RefineNe(f, lhs, rhs)) {
        ConsistentBefore(g, RefineNe(f, lhs, rhs));
        ConsistentBefore(f, g);
      }
      var nonneg := EntailsLe(Zero, x, 0);
      if nonneg { AddEdge(Zero, x, -1); }
      var nonpos := EntailsLe(x, Zero, 0);
      if nonpos { AddEdge(x, Zero, -1); }
    }

    method AddEdgeSub(from: Term, to: Term, c: int)
      requires Valid()
      modifies this
      ensures Valid() && State() == BoundsFacts.AddEdgeSub(old(State()), from, to, c)
    {
      hide BoundsFacts.AddEdge;
      hide WellFormed;
      AddEdge(from, to, c);
      match (from, to)
      case (Int(l), Zero) =>
        if l in subs { AddEdge(subs[l].0, subs[l].1, c); }
      case (Zero, Int(l)) =>
        if l in subs { AddEdge(subs[l].1, subs[l].0, c); }
      case _ =>
    }

    /** Records nothing for a weight outside 64 bits. */
    method AddEdgeSubFitting(from: Term, to: Term, weight: int)
      requires Valid()
      modifies this
      ensures Valid()
      ensures State() == if FitsI64(weight) then BoundsFacts.AddEdgeSub(old(State()), from, to, weight)
        else old(State())
    {
      var narrow := TryFromI128(weight);
      if narrow.Some? { AddEdgeSub(from, to, narrow.value); }
    }

    method AssertCmp(op: Prim, lhs: Term, lhsOff: I64, rhs: Term, rhsOff: I64)
      requires Valid()
      modifies this
      ensures Valid() && State() == BoundsFacts.AssertCmp(old(State()), op, lhs, lhsOff, rhs, rhsOff)
    {
      hide BoundsFacts.AddEdgeSub, BoundsFacts.AddEq, WellFormed;
      var d: int := rhsOff - lhsOff;
      match op
      case IntLt => AddEdgeSubFitting(lhs, rhs, d - 1);
      case IntLe => AddEdgeSubFitting(lhs, rhs, d);
      case IntGt => AddEdgeSubFitting(rhs, lhs, -d - 1);
      case IntGe => AddEdgeSubFitting(rhs, lhs, -d);
      case Eq =>
        var exact := TryFromI128(d);
        if exact.Some? { AddEq(lhs, rhs, exact.value); }
      case _ =>
    }

    /** Entering the `taken` branch of a conditional on `cond`. */
    method Refine(cond: Atom, taken: bool)
      requires Valid()
      modifies this
      ensures Valid()
      ensures Consistent(BoundsFacts.Refine(old(State()), cond, taken)) ==>
        State() == BoundsFacts.Refine(old(State()), cond, taken)
    {
      hide BoundsFacts.AddEdge;
      hide WellFormed;
      if !cond.Var? || cond.local !in conds {
        return;
      }
      var c := conds[cond.local];
      if c.op == Eq {
        if taken {
          AssertCmp(Eq, c.lhs, c.lhsOff, c.rhs, c.rhsOff);
        } else if c.lhsOff == 0 && c.rhsOff == 0 {
          RefineNotEqual(c.lhs, c.rhs);
        }
        return;
      }
      AssertCmp(if taken then c.op else Negate(c.op), c.lhs, c.lhsOff, c.rhs, c.rhsOff);
    }

    // ----- interprocedural facts -----

    method AddOptional(from: Option<Term>, to: Option<Term>, c: I64)
      requires Valid()
      modifies this
      ensures Valid() && State() == BoundsFacts.AddOptional(old(State()), from, to, c)
    {
      hide BoundsFacts.AddEdge;
      hide WellFormed;
      if from.Some? && to.Some? {
        AddEdge(from.value, to.value, c);
      }
    }

    method SeedEntry(sig: BoundSig, params: seq<nat>)
      requires Valid()
      modifies this
      ensures Valid() && State() == BoundsFacts.SeedEntry(old(State()), sig, params)
    {
      hide BoundsFacts.AddEdge;
      hide WellFormed;
      for i := 0 to |sig|
        invariant Valid() && State() == BoundsFacts.SeedEntry(old(State()), sig[..i], params)
      {
        assert sig[..i + 1][..i] == sig[..i];
        AddOptional(EntryTerm(sig[i].from, params), EntryTerm(sig[i].to, params), sig[i].c);
      }
      assert sig[..|sig|] == sig;
    }

    method TransferCall(local: nat, sig: ResultSig, args: seq<Atom>)
      requires Valid()
      modifies this
      ensures Valid() && State() == BoundsFacts.TransferCall(old(State()), local, sig, args)
    {
      hide BoundsFacts.AddEdge;
      hide WellFormed;
      var locals := ArgLocals(args);
      for i := 0 to |sig|
        invariant Valid() && State() == WholeFacts(old(State()), local, sig[..i], locals)
      {
        assert sig[..i + 1][..i] == sig[..i];
        AddOptional(ResultTerm(sig[i].from, local, locals), ResultTerm(sig[i].to, local, locals), sig[i].c);
      }
      assert sig[..|sig|] == sig;
      if MentionsField(sig) {
        label seeded:
        callResults := callResults[local := CallResult(sig, locals)];
        SameEdges(old@seeded(State()), State());
      }
    }

    method TransferMany(locals: seq<nat>, sig: ResultSig, args: seq<Atom>)
      requires Valid()
      modifies this
      ensures Valid() && State() == BoundsFacts.TransferMany(old(State()), locals, sig, ArgLocals(args))
    {
      hide BoundsFacts.AddEdge;
      hide WellFormed;
      var actuals := ArgLocals(args);
      for i := 0 to |sig|
        invariant Valid() && State() == BoundsFacts.TransferMany(old(State()), locals, sig[..i], actuals)
      {
        assert sig[..i + 1][..i] == sig[..i];
        AddOptional(ManyTerm(sig[i].from, locals, actuals), ManyTerm(sig[i].to, locals, actuals), sig[i].c);
      }
      assert sig[..|sig|] == sig;
    }

    method TransferResultField(local: nat, base: nat, k: nat)
      requires Valid()
      modifies this
      ensures Valid() && State() == TransferField(old(State()), local, base, k)
    {
      hide BoundsFacts.AddEdge;
      hide WellFormed;
      if base !in callResults {
        return;
      }
      var CallResult(sig, args) := callResults[base];
      for i := 0 to |sig|
        invariant Valid() && State() == FieldFacts(old(State()), local, k, sig[..i], args)
      {
        assert sig[..i + 1][..i] == sig[..i];
        AddOptional(FieldTerm(sig[i].from, k, local, args), FieldTerm(sig[i].to, k, local, args), sig[i].c);
      }
      assert sig[..|sig|] == sig;
    }
  }
}
