/** One simulated investment path: starting in `estable` with the initial
    investment, each of `Plazo` years takes one Markov transition and then
    compounds the value by `1 + annualReturn`, where the annual return is a
    normal variate with the parameters of the post-transition state. */
module Paths {
  import opened Numerics
  import opened Markov
  import opened Variates

  /** The horizon in years (`#define Plazo 10`). */
  const Plazo: nat := 10

  /** The randomness one year consumes: the uniform draw `r` for the state
      transition and the standard normal variate `z0` for the return. */
  datatype Year = Year(r: real, z0: real)

  /** The return drawn in a year spent in state `s`:
      `generateNormal(returns[s], stdDevs[s])` with standard variate `z0`. */
  function AnnualReturn(s: State, z0: real): (r: real)
    ensures z0 == 0.0 ==> r == Returns[s.Index()]
    ensures r > Returns[s.Index()] <==> z0 > 0.0
    ensures r < Returns[s.Index()] <==> z0 < 0.0
  {
    ParameterValues();
    Normal(Returns[s.Index()], StdDevs[s.Index()], z0)
  }

  /** The state after the transitions of all the years in `ys`, taken in
      order, starting from `s`. */
  function StateAfter(s: State, ys: seq<Year>): State
    decreases |ys|
  {
    if |ys| == 0 then s else StateAfter(Successor(s, ys[0].r), ys[1..])
  }

  /** The growth factors `1 + annualReturn` of the years in `ys`, starting
      from `s`; each year first moves the chain and then uses the state it
      has just moved into. */
  function Factors(s: State, ys: seq<Year>): (f: seq<real>)
    ensures |f| == |ys|
    decreases |ys|
  {
    if |ys| == 0 then []
    else
      var next := Successor(s, ys[0].r);
      [1.0 + AnnualReturn(next, ys[0].z0)] + Factors(next, ys[1..])
  }

  /** The terminal value of a path: the initial investment times the product
      of the yearly growth factors, the chain starting in `estable`. */
  function TerminalValue(invInicial: real, ys: seq<Year>): real
  {
    invInicial * Product(Factors(Estable, ys))
  }

  /** Year `k`'s factor uses the parameters of the state reached by the
      transitions of years `0..k`, i.e. after that year's own transition. */
  lemma {:induction false} FactorAt(s: State, ys: seq<Year>, k: nat)
    requires k < |ys|
    ensures Factors(s, ys)[k] == 1.0 + AnnualReturn(StateAfter(s, ys[..k + 1]), ys[k].z0)
    decreases k
  {
    var next := Successor(s, ys[0].r);
    if k == 0 {
      assert ys[..1][1..] == [];
    } else {
      FactorAt(next, ys[1..], k - 1);
      assert ys[..k + 1][0] == ys[0];
      assert ys[..k + 1][1..] == ys[1..][..k];
    }
  }

  /** Compounding by a first factor `1 + ret` is compounding `value * (1 + ret)`
      by the rest. */
  lemma {:induction false} CompoundByReturn(value: real, ret: real, rest: seq<real>, fs: seq<real>, newValue: real)
    requires fs == [1.0 + ret] + rest
    requires newValue == value * (1.0 + ret)
    ensures Compound(value, fs) == Compound(newValue, rest)
  {
    CompoundFirst(value, fs);
    assert fs[0] == 1.0 + ret && fs[1..] == rest;
  }

  /** Year `k` of the loop: compounding `value` by the factors of the years
      from `k` on is compounding, from the state `next` the year moves to,
      `value * (1 + annualReturn)` by the factors of the years after it. */
  lemma {:induction false} CompoundStep(s: State, value: real, ys: seq<Year>, k: nat,
                                        next: State, annualReturn: real, newValue: real)
    requires k < |ys|
    requires next == Successor(s, ys[k].r)
    requires annualReturn == AnnualReturn(next, ys[k].z0)
    requires newValue == value * (1.0 + annualReturn)
    ensures Compound(value, Factors(s, ys[k..])) == Compound(newValue, Factors(next, ys[k + 1..]))
  {
    assert ys[k..][0] == ys[k];
    assert ys[k..][1..] == ys[k + 1..];
    CompoundByReturn(value, annualReturn, Factors(next, ys[k + 1..]), Factors(s, ys[k..]), newValue);
  }

  /** The body of the outer loop of `main`: one path of `Plazo` years. */
  method SimulatePath(invInicial: real, ys: seq<Year>) returns (investmentValue: real)
    requires |ys| == Plazo
    ensures investmentValue == invInicial * Product(Factors(Estable, ys))
  {
    investmentValue := invInicial;
    var currentState := Estable;
    var year := 0;
    while year < Plazo
      invariant 0 <= year <= Plazo
      invariant Compound(investmentValue, Factors(currentState, ys[year..]))
                == Compound(invInicial, Factors(Estable, ys))
    {
      ghost var previousState, previousValue := currentState, investmentValue;
      currentState := GetNextState(currentState, ys[year].r);
      var annualReturn := AnnualReturn(currentState, ys[year].z0);
      investmentValue := investmentValue * (1.0 + annualReturn);
      CompoundStep(previousState, previousValue, ys, year, currentState, annualReturn, investmentValue);
      year := year + 1;
    }
    assert Factors(currentState, ys[Plazo..]) == [];
    CompoundIsProduct(invInicial, Factors(Estable, ys));
  }

  /** Deterministic compounding: when every transition draw keeps the chain
      in `estable` (r >= 0.2) and every standard variate is zero, the path
      never leaves `estable` and grows by exactly 1.02 a year. */
  lemma {:induction false} StablePathCompounds(ys: seq<Year>)
    requires forall k :: 0 <= k < |ys| ==> ys[k].r >= 0.2 && ys[k].z0 == 0.0
    ensures StateAfter(Estable, ys) == Estable
    ensures Product(Factors(Estable, ys)) == Pow(1.02, |ys|)
  {
    if |ys| > 0 {
      var rest := ys[1..];
      assert forall k :: 0 <= k < |rest| ==> rest[k] == ys[k + 1];
      StablePathCompounds(rest);
      ThresholdsFromEstable(ys[0].r);
      assert AnnualReturn(Estable, ys[0].z0) == 0.02 by {
        assert Returns[Estable.Index()] == 0.02;
      }
      assert Factors(Estable, ys) == [1.02] + Factors(Estable, rest);
      ProductCons(1.02, Factors(Estable, rest));
      assert Pow(1.02, |ys|) == Pow(1.02, |rest|) * 1.02;
    }
  }

  /** Deterministic compounding over the ten-year horizon: ten such years turn `invInicial` into
      `invInicial * 1.02^10`. */
  lemma {:induction false} StablePathTerminalValue(invInicial: real, ys: seq<Year>)
    requires |ys| == Plazo
    requires forall k :: 0 <= k < |ys| ==> ys[k].r >= 0.2 && ys[k].z0 == 0.0
    ensures TerminalValue(invInicial, ys) == invInicial * Pow(1.02, 10)
  {
    StablePathCompounds(ys);
  }
}
