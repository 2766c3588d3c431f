/** Parsing a token list with the usual precedences, and evaluating the tree with explicit
    work and value stacks. */
module ExprEval {
  import opened Machine

  datatype Token = Number(k: I64) | Plus | Minus | Star

  datatype Expr = Num(k: I64) | Add(l: Expr, r: Expr) | Sub(l: Expr, r: Expr) | Mul(l: Expr, r: Expr)

  datatype Parsed = Parsed(e: Expr, rest: seq<Token>)

  // ----- the grammar -----

  function Print(e: Expr): (s: seq<Token>)
    ensures s != []
  {
    match e
    case Num(k) => [Number(k)]
    case Add(l, r) => Print(l) + [Plus] + Print(r)
    case Sub(l, r) => Print(l) + [Minus] + Print(r)
    case Mul(l, r) => Print(l) + [Star] + Print(r)
  }

  /** Products of numbers, nested to the left. */
  predicate Term(e: Expr) {
    e.Num? || (e.Mul? && Term(e.l) && e.r.Num?)
  }

  /** Sums and differences of terms, nested to the left: none beneath a product. */
  predicate Sum(e: Expr) {
    if e.Add? || e.Sub? then Sum(e.l) && Term(e.r) else Term(e)
  }

  predicate StartsWith(tokens: seq<Token>, t: Token) {
    tokens != [] && tokens[0] == t
  }

  predicate StartsSum(tokens: seq<Token>) {
    StartsWith(tokens, Plus) || StartsWith(tokens, Minus)
  }

  // ----- what the parser computes -----

  function Factor(tokens: seq<Token>): Option<Parsed> {
    if tokens != [] && tokens[0].Number? then Some(Parsed(Num(tokens[0].k), tokens[1..])) else None
  }

  function TermFrom(left: Expr, rest: seq<Token>): Option<Parsed>
    decreases |rest|
  {
    if !StartsWith(rest, Star) then Some(Parsed(left, rest))
    else match Factor(rest[1..])
      case Some(p) => TermFrom(Mul(left, p.e), p.rest)
      case None => None
  }

  function ParseTermOf(tokens: seq<Token>): Option<Parsed> {
    match Factor(tokens)
    case Some(p) => TermFrom(p.e, p.rest)
    case None => None
  }

  lemma {:induction false} TermFromShrinks(left: Expr, rest: seq<Token>)
    ensures var p := TermFrom(left, rest); p.Some? ==> |p.value.rest| <= |rest|
    decreases |rest|
  {
    if StartsWith(rest, Star) && Factor(rest[1..]).Some? {
      var p := Factor(rest[1..]).value;
      TermFromShrinks(Mul(left, p.e), p.rest);
    }
  }

  function SumFrom(left: Expr, rest: seq<Token>): Option<Parsed>
    decreases |rest|
  {
    if !StartsSum(rest) then Some(Parsed(left, rest))
    else
      var p := ParseTermOf(rest[1..]);
      if p.None? then None
      else
        ParseShrinks(rest[1..]);
        SumFrom(if rest[0] == Minus then Sub(left, p.value.e) else Add(left, p.value.e), p.value.rest)
  }

  lemma ParseShrinks(tokens: seq<Token>)
    ensures ParseTermOf(tokens).Some? ==> |ParseTermOf(tokens).value.rest| < |tokens|
  {
    if Factor(tokens).Some? { TermFromShrinks(Factor(tokens).value.e, Factor(tokens).value.rest); }
  }

  function ParseOf(tokens: seq<Token>): Option<Parsed> {
    match ParseTermOf(tokens)
    case Some(p) => SumFrom(p.e, p.rest)
    case None => None
  }

  // ----- the parser's loops -----

  method ParseTerm(tokens: seq<Token>) returns (r: Option<Parsed>)
    ensures r == ParseTermOf(tokens)
  {
    var first := Factor(tokens);
    if first.None? { return None; }
    var left, rest := first.value.e, first.value.rest;
    while true
      invariant TermFrom(left, rest) == ParseTermOf(tokens)
      decreases |rest|
    {
      if !StartsWith(rest, Star) { return Some(Parsed(left, rest)); }
      var p := Factor(rest[1..]);
      if p.None? { return None; }
      left, rest := Mul(left, p.value.e), p.value.rest;
    }
  }

  method ParseExpr(tokens: seq<Token>) returns (r: Option<Parsed>)
    ensures r == ParseOf(tokens)
  {
    var first := ParseTerm(tokens);
    if first.None? { return None; }
    var left, rest := first.value.e, first.value.rest;
    while true
      invariant SumFrom(left, rest) == ParseOf(tokens)
      decreases |rest|
    {
      if !StartsSum(rest) { return Some(Parsed(left, rest)); }
      var subtract := rest[0] == Minus;
      var p := ParseTerm(rest[1..]);
      if p.None? { return None; }
      ParseShrinks(rest[1..]);
      left, rest := if subtract then Sub(left, p.value.e) else Add(left, p.value.e), p.value.rest;
    }
  }

  // ----- a successful parse prints back, and printing parses -----

  lemma TermStep(left: Expr, rest: seq<Token>)
    requires StartsWith(rest, Star) && Factor(rest[1..]).Some?
    ensures var f := Factor(rest[1..]).value; Print(Mul(left, f.e)) + f.rest == Print(left) + rest
  {
    var f := Factor(rest[1..]).value;
    assert rest == [Star] + ([Number(f.e.k)] + f.rest);
    Reassociate(Print(left), [Star], [Number(f.e.k)], f.rest);
  }

  lemma {:induction false} TermPrints(left: Expr, rest: seq<Token>)
    requires Term(left) && TermFrom(left, rest).Some?
    ensures var p := TermFrom(left, rest).value;
      Term(p.e) && Print(p.e) + p.rest == Print(left) + rest && !StartsWith(p.rest, Star)
    decreases |rest|
  {
    hide Print;
    if StartsWith(rest, Star) {
      var f := Factor(rest[1..]).value;
      TermStep(left, rest);
      TermPrints(Mul(left, f.e), f.rest);
    }
  }

  lemma TermParsed(tokens: seq<Token>)
    requires ParseTermOf(tokens).Some?
    ensures var p := ParseTermOf(tokens).value;
      Term(p.e) && Print(p.e) + p.rest == tokens && !StartsWith(p.rest, Star)
  {
    var f := Factor(tokens).value;
    TermPrints(f.e, f.rest);
    assert tokens == [tokens[0]] + tokens[1..];
  }

  lemma {:induction false} SumPrints(left: Expr, rest: seq<Token>)
    requires Sum(left) && SumFrom(left, rest).Some? && !StartsWith(rest, Star)
    ensures var p := SumFrom(left, rest).value;
      Sum(p.e) && Print(p.e) + p.rest == Print(left) + rest && !StartsWith(p.rest, Star) && !StartsSum(p.rest)
    decreases |rest|
  {
    if StartsSum(rest) {
      var t := ParseTermOf(rest[1..]).value;
      var more := if rest[0] == Minus then Sub(left, t.e) else Add(left, t.e);
      TermParsed(rest[1..]);
      ParseShrinks(rest[1..]);
      assert SumFrom(left, rest) == SumFrom(more, t.rest);
      SumPrints(more, t.rest);
      assert rest == [rest[0]] + rest[1..];
      assert Print(more) == Print(left) + [rest[0]] + Print(t.e);
      hide Print, SumFrom, ParseTermOf, Term, Sum;
      Reassociate(Print(left), [rest[0]], Print(t.e), t.rest);
    }
  }

  lemma Reassociate(a: seq<Token>, b: seq<Token>, c: seq<Token>, d: seq<Token>)
    ensures a + b + c + d == a + (b + (c + d))
  {
  }

  /** A successful parse reads as much as it can: the tree prints back to what was
      consumed, with no sum or difference beneath a product. */
  lemma ParsePrints(tokens: seq<Token>)
    requires ParseOf(tokens).Some?
    ensures var p := ParseOf(tokens).value;
      Sum(p.e) && Print(p.e) + p.rest == tokens && !StartsWith(p.rest, Star) && !StartsSum(p.rest)
  {
    TermParsed(tokens);
    var t := ParseTermOf(tokens).value;
    SumPrints(t.e, t.rest);
  }

  lemma {:induction false} TermReads(e: Expr, rest: seq<Token>)
    requires Term(e)
    ensures ParseTermOf(Print(e) + rest) == TermFrom(e, rest)
    decreases e
  {
    if e.Num? {
      assert (Print(e) + rest)[1..] == rest;
    } else {
      var more := [Star] + ([Number(e.r.k)] + rest);
      assert Print(e) + rest == Print(e.l) + more;
      TermReads(e.l, more);
      assert more[1..] == [Number(e.r.k)] + rest && more[1..][1..] == rest;
    }
  }

  lemma {:induction false} SumReads(e: Expr, rest: seq<Token>)
    requires Sum(e) && !StartsWith(rest, Star)
    ensures ParseOf(Print(e) + rest) == SumFrom(e, rest)
    decreases e
  {
    if e.Add? || e.Sub? {
      var op := if e.Sub? then Minus else Plus;
      var more := [op] + (Print(e.r) + rest);
      assert Print(e) + rest == Print(e.l) + more;
      SumReads(e.l, more);
      TermReads(e.r, rest);
      assert more[1..] == Print(e.r) + rest;
    } else {
      TermReads(e, rest);
    }
  }

  /** Printing and parsing again gives the tree back: the grammar is unambiguous. */
  lemma PrintParses(e: Expr, rest: seq<Token>)
    requires Sum(e) && !StartsWith(rest, Star) && !StartsSum(rest)
    ensures ParseOf(Print(e) + rest) == Some(Parsed(e, rest))
  {
    SumReads(e, rest);
  }

  // ----- evaluation -----

  function Value(e: Expr): I64 {
    match e
    case Num(k) => k
    case Add(l, r) => Wrap(Value(l) + Value(r))
    case Sub(l, r) => Wrap(Value(l) - Value(r))
    case Mul(l, r) => Wrap(Value(l) * Value(r))
  }

  datatype Work = Visit(e: Expr) | DoAdd | DoSub | DoMul

  function Combine(op: Work, left: I64, right: I64): I64
    requires !op.Visit?
  {
    match op
    case DoAdd => Wrap(left + right)
    case DoSub => Wrap(left - right)
    case DoMul => Wrap(left * right)
  }

  /** Whether the work can be done with that many values waiting, and how many it leaves. */
  function Leaves(work: seq<Work>, waiting: nat): Option<nat>
    decreases |work|
  {
    if work == [] then Some(waiting)
    else if work[0].Visit? then Leaves(work[1..], waiting + 1)
    else if waiting < 2 then None
    else Leaves(work[1..], waiting - 1)
  }

  /** The values after the work, each tree evaluated recursively. */
  function Finish(work: seq<Work>, values: seq<I64>): seq<I64>
    requires Leaves(work, |values|).Some?
    decreases |work|
  {
    if work == [] then values
    else if work[0].Visit? then Finish(work[1..], [Value(work[0].e)] + values)
    else Finish(work[1..], [Combine(work[0], values[1], values[0])] + values[2..])
  }

  function Size(e: Expr): nat {
    match e
    case Num(_) => 1
    case Add(l, r) => Size(l) + Size(r) + 2
    case Sub(l, r) => Size(l) + Size(r) + 2
    case Mul(l, r) => Size(l) + Size(r) + 2
  }

  function Remaining(work: seq<Work>): nat {
    if work == [] then 0 else (if work[0].Visit? then Size(work[0].e) else 1) + Remaining(work[1..])
  }

  function Operation(e: Expr): Work
    requires !e.Num?
  {
    if e.Add? then DoAdd else if e.Sub? then DoSub else DoMul
  }

  lemma OneStep(step: Work, work: seq<Work>, values: seq<I64>)
    ensures Remaining([step] + work) == (if step.Visit? then Size(step.e) else 1) + Remaining(work)
    ensures Leaves([step] + work, |values|) ==
      if step.Visit? then Leaves(work, |values| + 1) else if |values| < 2 then None else Leaves(work, |values| - 1)
    ensures step.Visit? && Leaves(work, |values| + 1).Some? ==>
      Finish([step] + work, values) == Finish(work, [Value(step.e)] + values)
    ensures !step.Visit? && |values| >= 2 && Leaves(work, |values| - 1).Some? ==>
      Finish([step] + work, values) == Finish(work, [Combine(step, values[1], values[0])] + values[2..])
  {
    assert ([step] + work)[1..] == work;
  }

  /** Putting both children and the operation on the stack changes nothing. */
  lemma Unfold(e: Expr, work: seq<Work>, values: seq<I64>)
    requires !e.Num? && Leaves(work, |values| + 1).Some?
    ensures var more := [Visit(e.l), Visit(e.r), Operation(e)] + work;
      && Leaves(more, |values|) == Leaves(work, |values| + 1)
      && Finish(more, values) == Finish(work, [Value(e)] + values)
      && Remaining(more) < Size(e) + Remaining(work)
  {
    hide Leaves, Finish, Remaining;
    var op := Operation(e);
    var one, two := [Value(e.l)] + values, [Value(e.r)] + ([Value(e.l)] + values);
    assert [Visit(e.l), Visit(e.r), op] + work == [Visit(e.l)] + ([Visit(e.r)] + ([op] + work));
    OneStep(op, work, two);
    OneStep(Visit(e.r), [op] + work, one);
    OneStep(Visit(e.l), [Visit(e.r)] + ([op] + work), values);
    assert two[2..] == values && two[1] == Value(e.l);
  }

  /** Evaluation by explicit stacks: it ends, never finds too few values, and gives the
      value of the tree. */
  method Eval(root: Expr) returns (result: I64)
    ensures result == Value(root)
  {
    var work := [Visit(root)];
    var values: seq<I64> := [];
    assert work[1..] == [];
    while work != []
      invariant Leaves(work, |values|) == Some(1) && Finish(work, values) == [Value(root)]
      decreases Remaining(work)
    {
      var step, rest := work[0], work[1..];
      assert work == [step] + rest;
      OneStep(step, rest, values);
      work := rest;
      if step.Visit? && step.e.Num? {
        values := [step.e.k] + values;
      } else if step.Visit? {
        Unfold(step.e, rest, values);
        work := [Visit(step.e.l), Visit(step.e.r), Operation(step.e)] + rest;
      } else {
        var right, left := values[0], values[1];
        values := [Combine(step, left, right)] + values[2..];
      }
    }
    result := values[0];
  }

  method EvalTokens(tokens: seq<Token>) returns (result: I64)
    ensures result == match ParseOf(tokens) case Some(p) => Value(p.e) case None => 0
  {
    var p := ParseExpr(tokens);
    if p.None? { return 0; }
    result := Eval(p.value.e);
  }
}
