/** Loop parameters as an environment, and one iteration of a loop body. */
module CoreLoop {
  import opened Core

  function Bind<V>(params: seq<nat>, vals: seq<V>): map<nat, V>
    requires |params| == |vals|
    decreases |params|
  {
    if params == [] then map[]
    else
      var n := |params| - 1;
      Bind(params[..n], vals[..n])[params[n] := vals[n]]
  }

  function ParamSet(params: seq<nat>): set<nat> {
    set p | p in params
  }

  ghost predicate Distinct(params: seq<nat>) {
    forall i, j :: 0 <= i < j < |params| ==> params[i] != params[j]
  }

  lemma {:induction false} BindValues<V>(params: seq<nat>, vals: seq<V>)
    requires |params| == |vals| && Distinct(params)
    ensures Bind(params, vals).Keys == ParamSet(params)
    ensures forall i :: 0 <= i < |params| ==>
      params[i] in Bind(params, vals) && Bind(params, vals)[params[i]] == vals[i]
    decreases |params|
  {
    if params != [] {
      var n := |params| - 1;
      BindValues(params[..n], vals[..n]);
      var inner := Bind(params[..n], vals[..n]);
      assert params == params[..n] + [params[n]];
      forall i | 0 <= i < |params| ensures params[i] in Bind(params, vals) && Bind(params, vals)[params[i]] == vals[i] {
        if i < n { assert params[..n][i] == params[i] && vals[..n][i] == vals[i]; }
      }
    }
  }

  lemma BindAt<V>(params: seq<nat>, vals: seq<V>, i: nat)
    requires |params| == |vals| && Distinct(params) && i < |params|
    ensures params[i] in Bind(params, vals) && Bind(params, vals)[params[i]] == vals[i]
  {
    BindValues(params, vals);
  }

  function Iterate(ops: Interp, params: seq<nat>, body: Expr, vals: seq<Value>): Outcome
    requires |vals| == |params|
  {
    Eval(ops, body, Bind(params, vals))
  }

  datatype Final = Done(o: Outcome) | OutOfFuel
}
