/** The body of `main` in both programs: the integration estimate, the
    `NUM_SIMULACIONES` Markov paths written into `finalValues`, their mean
    turned into the Markov percentage return, and the blend of the two
    estimates with their absolute difference as the uncertainty. The
    sequential program runs the paths in index order; the OpenMP program
    runs the same iterations in whatever order the threads reach them and
    sums the integration samples with a reduction. */
module Aggregate {
  import opened Numerics
  import opened Paths
  import opened Integration

  /** `#define NUM_SIMULACIONES 10000`: the number of integration points and
      of Markov paths. */
  const NumSimulaciones: nat := 10000

  /** The initial investment the sequential program uses (`invInicial`). */
  const InvInicial: real := 10000.0

  /** The four reported figures, all percentages: `rentabilidadIntegral`,
      `rentabilidadMarkov`, `rentabilidadFinal` and `incertidumbre`. */
  datatype Estimation = Estimation(integrationPct: real, markovPct: real, blendedPct: real, uncertaintyPct: real)

  /** `rentabilidadFinal = (a + b) / 2`: the midpoint of the two estimates. */
  function Blend(a: real, b: real): (r: real)
    ensures a <= r <= b || b <= r <= a
    ensures r - a == b - r
  {
    (a + b) / 2.0
  }

  /** `incertidumbre = fabs(a - b)`. */
  function Uncertainty(a: real, b: real): (u: real)
    ensures u >= 0.0
    ensures u == 0.0 <==> a == b
    ensures u == a - b || u == b - a
  {
    if a - b < 0.0 then -(a - b) else a - b
  }

  /** The uncertainty does not depend on the order of the two estimates. */
  lemma UncertaintySymmetric(a: real, b: real)
    ensures Uncertainty(a, b) == Uncertainty(b, a)
  {
  }

  /** Blend and uncertainty together recover the two estimates: half the
      uncertainty below the blend is the smaller one, above it the larger. */
  lemma BlendUncertaintyBracket(a: real, b: real)
    ensures Blend(a, b) - Uncertainty(a, b) / 2.0 == (if a <= b then a else b)
    ensures Blend(a, b) + Uncertainty(a, b) / 2.0 == (if a <= b then b else a)
  {
  }

  /** The last two lines of `main`: the two estimates, their blend and
      their uncertainty, which together bracket the estimates. */
  function Combine(integrationPct: real, markovPct: real): (e: Estimation)
    ensures e.integrationPct == integrationPct && e.markovPct == markovPct
    ensures e.blendedPct - e.uncertaintyPct / 2.0 == (if integrationPct <= markovPct then integrationPct else markovPct)
    ensures e.blendedPct + e.uncertaintyPct / 2.0 == (if integrationPct <= markovPct then markovPct else integrationPct)
  {
    BlendUncertaintyBracket(integrationPct, markovPct);
    Estimation(integrationPct, markovPct, Blend(integrationPct, markovPct), Uncertainty(integrationPct, markovPct))
  }

  /** One path's randomness per simulated investment, each of `Plazo` years. */
  predicate WellFormedPaths(paths: seq<seq<Year>>)
  {
    |paths| == NumSimulaciones && forall i :: 0 <= i < |paths| ==> |paths[i]| == Plazo
  }

  /** The terminal value of every path, in path order. */
  function TerminalValues(invInicial: real, paths: seq<seq<Year>>): (v: seq<real>)
    ensures |v| == |paths|
  {
    seq(|paths|, i requires 0 <= i < |paths| => TerminalValue(invInicial, paths[i]))
  }

  /** The loop computing `averageReturn`: the sum of `finalValues` divided by
      `NUM_SIMULACIONES`, which is the length of the array. */
  method AverageTerminal(finalValues: array<real>) returns (averageReturn: real)
    requires finalValues.Length == NumSimulaciones
    ensures averageReturn == Mean(finalValues[..])
  {
    averageReturn := 0.0;
    assert finalValues[..0] == [];
    for i := 0 to NumSimulaciones
      invariant averageReturn == Sum(finalValues[..i])
    {
      SumPrefixStep(finalValues[..], i);
      assert finalValues[..][..i + 1] == finalValues[..i + 1];
      averageReturn := averageReturn + finalValues[i];
    }
    assert finalValues[..NumSimulaciones] == finalValues[..];
    averageReturn := averageReturn / NumSimulaciones as real;
  }

  /** The Markov percentage return as a mean over paths bounded by the
      terminal values: if every terminal value lies in [lo, hi] then
      `averageReturn` does too. */
  lemma {:induction false} AverageWithinTerminalRange(invInicial: real, paths: seq<seq<Year>>, lo: real, hi: real)
    requires |paths| > 0
    requires forall i :: 0 <= i < |paths| ==> lo <= TerminalValue(invInicial, paths[i]) <= hi
    ensures lo <= Mean(TerminalValues(invInicial, paths)) <= hi
  {
    MeanBounds(TerminalValues(invInicial, paths), lo, hi);
  }

  /** The sequential path loop: path `i` is simulated and its terminal value
      written to `finalValues[i]`, for `i` in index order. */
  method SimulatePathsSequential(invInicial: real, paths: seq<seq<Year>>) returns (finalValues: array<real>)
    requires WellFormedPaths(paths)
    ensures fresh(finalValues)
    ensures finalValues[..] == TerminalValues(invInicial, paths)
  {
    finalValues := new real[NumSimulaciones];
    for i := 0 to NumSimulaciones
      invariant forall k :: 0 <= k < i ==> finalValues[k] == TerminalValue(invInicial, paths[k])
    {
      var investmentValue := SimulatePath(invInicial, paths[i]);
      finalValues[i] := investmentValue;
    }
  }

  /** One iteration of the OpenMP path loop: it writes `finalValues[i]` and
      no other slot. */
  method SimulateIteration(finalValues: array<real>, i: nat, invInicial: real, ys: seq<Year>)
    requires i < finalValues.Length
    requires |ys| == Plazo
    modifies finalValues
    ensures finalValues[i] == TerminalValue(invInicial, ys)
    ensures forall k :: 0 <= k < finalValues.Length && k != i ==> finalValues[k] == old(finalValues[k])
  {
    var investmentValue := SimulatePath(invInicial, ys);
    finalValues[i] := investmentValue;
  }

  /** The OpenMP path loop: the iterations run in the order `order`, any
      ordering of the path indices, with the draws of each path fixed by
      its index (one stream per path). Under that assumption the array
      comes out the same as with the sequential loop; the C program seeds
      with the path index plus the thread number and shares one generator
      between threads, so its draws, and hence its array, depend on the
      schedule. */
  method SimulatePathsInOrder(invInicial: real, paths: seq<seq<Year>>, order: seq<nat>)
    returns (finalValues: array<real>)
    requires WellFormedPaths(paths)
    requires |order| == |paths|
    requires forall k :: 0 <= k < |order| ==> order[k] < |paths|
    requires forall i :: 0 <= i < |paths| ==> i in order
    ensures fresh(finalValues)
    ensures finalValues[..] == TerminalValues(invInicial, paths)
  {
    finalValues := new real[NumSimulaciones];
    var k := 0;
    while k < |order|
      invariant 0 <= k <= |order|
      invariant forall j :: 0 <= j < k ==> finalValues[order[j]] == TerminalValue(invInicial, paths[order[j]])
    {
      SimulateIteration(finalValues, order[k], invInicial, paths[order[k]]);
      k := k + 1;
    }
    forall i | 0 <= i < NumSimulaciones
      ensures finalValues[i] == TerminalValue(invInicial, paths[i])
    {
      assert i in order;
      var j :| 0 <= j < |order| && order[j] == i;
    }
  }

  /** `main` of the sequential program, with `invInicial = 10000`: the
      integration estimate, the Markov estimate and their blend. */
  method EstimateSequential(us: seq<real>, f: real -> real, paths: seq<seq<Year>>) returns (e: Estimation)
    requires |us| == NumSimulaciones
    requires WellFormedPaths(paths)
    ensures e.integrationPct == 100.0 * Mean(Evaluate(f, us))
    ensures e.markovPct == ((Mean(TerminalValues(InvInicial, paths)) - InvInicial) / InvInicial) * 100.0
    ensures e.blendedPct == Blend(e.integrationPct, e.markovPct)
    ensures e.uncertaintyPct == Uncertainty(e.integrationPct, e.markovPct)
  {
    var rentabilidadIntegral := MonteCarloIntegration(NumSimulaciones, InvInicial, us, f);
    var finalValues := SimulatePathsSequential(InvInicial, paths);
    var averageReturn := AverageTerminal(finalValues);
    var rentabilidadMarkov := PercentReturn(averageReturn, InvInicial);
    e := Combine(rentabilidadIntegral.value, rentabilidadMarkov.value);
  }

  /** The Markov percentage return of an average equal to `mean`. */
  lemma PercentReturnOfMean(averageReturn: real, invInicial: real, mean: real)
    requires invInicial != 0.0
    requires averageReturn == mean
    ensures PercentReturn(averageReturn, invInicial) == Some(((mean - invInicial) / invInicial) * 100.0)
  {
  }

  /** `main` of the OpenMP program, with the initial investment read from the
      console: the integration sum split into the chunks `bounds`, the paths
      run in the order `order`. With the draws of each path fixed by its
      index, neither the split nor the order changes the result; a zero
      investment makes every percentage non-finite. The C program's own
      seeding is not reproducible in this sense. */
  method EstimateParallel(invInicial: real, us: seq<real>, f: real -> real, bounds: seq<nat>,
                          paths: seq<seq<Year>>, order: seq<nat>)
    returns (e: Option<Estimation>)
    requires |us| == NumSimulaciones
    requires IsPartition(bounds, |us|)
    requires WellFormedPaths(paths)
    requires |order| == |paths|
    requires forall k :: 0 <= k < |order| ==> order[k] < |paths|
    requires forall i :: 0 <= i < |paths| ==> i in order
    ensures e.None? <==> invInicial == 0.0
    ensures e.Some? ==> e.value.integrationPct == 100.0 * Mean(Evaluate(f, us))
    ensures e.Some? ==> e.value.markovPct == ((Mean(TerminalValues(invInicial, paths)) - invInicial) / invInicial) * 100.0
    ensures e.Some? ==> e.value.blendedPct == Blend(e.value.integrationPct, e.value.markovPct)
    ensures e.Some? ==> e.value.uncertaintyPct == Uncertainty(e.value.integrationPct, e.value.markovPct)
  {
    var rentabilidadIntegral := MonteCarloIntegrationReduced(NumSimulaciones, invInicial, us, f, bounds);
    var finalValues := SimulatePathsInOrder(invInicial, paths, order);
    var averageReturn := AverageTerminal(finalValues);
    var rentabilidadMarkov := PercentReturn(averageReturn, invInicial);
    if rentabilidadIntegral.None? || rentabilidadMarkov.None? {
      return None;
    }
    IntegralReturnIsMean(Evaluate(f, us), NumSimulaciones, invInicial);
    PercentReturnOfMean(averageReturn, invInicial, Mean(TerminalValues(invInicial, paths)));
    e := Some(Combine(rentabilidadIntegral.value, rentabilidadMarkov.value));
  }
}
