/** The integration estimator `monteCarloIntegracion`: draws `numPuntos`
    points `x` uniformly in [a,b] = [0,1], sums the kernel values `fx`,
    turns the mean into an integral estimate and that into a percentage
    return on the initial investment. The kernel `exp(-x*x)` is a
    parameter; the uniform draws `rand() / RAND_MAX` are an explicit
    sequence. Two versions: a sequential accumulation, and the OpenMP
    `reduction(+:suma)` as private partial sums over a split of the index
    range that are added together at the end. */
module Integration {
  import opened Numerics

  /** Lower bound `a` of the integration interval. */
  const A: real := 0.0
  /** Upper bound `b` of the integration interval. */
  const B: real := 1.0

  /** The sample point `x = a + (b - a) * u` for the uniform draw `u`. */
  function Sample(u: real): (x: real)
    ensures 0.0 <= u <= 1.0 ==> A <= x <= B
  {
    A + (B - A) * u
  }

  /** The kernel values `fx` of the sample points of the draws `us`. */
  function Evaluate(f: real -> real, us: seq<real>): (fx: seq<real>)
    ensures |fx| == |us|
  {
    seq(|us|, k requires 0 <= k < |us| => f(Sample(us[k])))
  }

  /** Number of draws the sampling loop makes for `numPuntos` (none when it
      is zero or negative). */
  function DrawCount(numPuntos: int): nat
  {
    if numPuntos > 0 then numPuntos else 0
  }

  /** Percentage return `((final - inv) / inv) * 100`; `None` when the
      initial investment is zero, where the C division is not finite. */
  function PercentReturn(finalValue: real, invInicial: real): (p: Option<real>)
    ensures p.None? <==> invInicial == 0.0
    ensures p.Some? ==> finalValue == invInicial * (1.0 + p.value / 100.0)
  {
    if invInicial == 0.0 then None else Some(((finalValue - invInicial) / invInicial) * 100.0)
  }

  /** The step after the sampling loop: `integral = (b - a) * suma / numPuntos`,
      `valorFinalInversion = invInicial * (1 + integral)`, then the
      percentage return. The investment cancels: the result is
      `100 * (b - a) * suma / numPuntos` whenever it is finite. */
  function IntegralReturn(suma: real, numPuntos: int, invInicial: real): (p: Option<real>)
    ensures p.None? <==> numPuntos == 0 || invInicial == 0.0
    ensures p.Some? ==> p.value == 100.0 * (B - A) * suma / numPuntos as real
  {
    if numPuntos == 0 then None
    else
      var integral := (B - A) * suma / numPuntos as real;
      var valorFinalInversion := invInicial * (1.0 + integral);
      var p := PercentReturn(valorFinalInversion, invInicial);
      assert p.Some? ==> p.value == 100.0 * integral by {
        if p.Some? {
          assert valorFinalInversion - invInicial == invInicial * integral;
          assert (invInicial * integral) / invInicial == integral;
        }
      }
      p
  }

  /** With one draw per point, a positive point count and a non-zero
      investment, the integration return is 100 (b - a) times the mean of
      the kernel values. */
  lemma IntegralReturnIsMean(fxs: seq<real>, numPuntos: int, invInicial: real)
    requires numPuntos == |fxs| > 0
    requires invInicial != 0.0
    ensures IntegralReturn(Sum(fxs), numPuntos, invInicial) == Some(100.0 * (B - A) * Mean(fxs))
  {
    var p := IntegralReturn(Sum(fxs), numPuntos, invInicial);
    var mean := Mean(fxs);
    assert mean == Sum(fxs) / numPuntos as real;
    ScaleQuotient(100.0 * (B - A), Sum(fxs), numPuntos as real);
    assert p.value == 100.0 * (B - A) * mean;
    assert p == Some(100.0 * (B - A) * mean);
  }

  /** `monteCarloIntegracion(numPuntos, invInicial)` with the sequential
      loop. `us` holds the draw of each iteration. */
  method MonteCarloIntegration(numPuntos: int, invInicial: real, us: seq<real>, f: real -> real)
    returns (rentabilidad: Option<real>)
    requires |us| == DrawCount(numPuntos)
    ensures rentabilidad == IntegralReturn(Sum(Evaluate(f, us)), numPuntos, invInicial)
    ensures numPuntos > 0 && invInicial != 0.0 ==> rentabilidad == Some(100.0 * (B - A) * Mean(Evaluate(f, us)))
    ensures numPuntos < 0 && invInicial != 0.0 ==> rentabilidad == Some(0.0)
  {
    ghost var fxs := Evaluate(f, us);
    var suma := 0.0;
    var i := 0;
    assert fxs[..0] == [];
    while i < numPuntos
      invariant 0 <= i <= |us|
      invariant suma == Sum(fxs[..i])
    {
      var x := Sample(us[i]);
      var fx := f(x);
      SumPrefixStep(fxs, i);
      suma := suma + fx;
      i := i + 1;
    }
    assert fxs[..i] == fxs;
    rentabilidad := IntegralReturn(suma, numPuntos, invInicial);
    if numPuntos > 0 && invInicial != 0.0 {
      IntegralReturnIsMean(fxs, numPuntos, invInicial);
    }
  }

  /** A split of the index range `0..n` into consecutive chunks, one per
      worker: `bounds[t]..bounds[t+1]` is chunk `t`. */
  predicate IsPartition(bounds: seq<nat>, n: nat)
  {
    && |bounds| >= 1
    && bounds[0] == 0
    && bounds[|bounds| - 1] == n
    && forall s, t :: 0 <= s <= t < |bounds| ==> bounds[s] <= bounds[t]
  }

  /** One worker's share of the reduction: its private copy of `suma`,
      starting at zero, accumulates the kernel values of the iterations
      `lo..hi`. */
  method SumChunk(us: seq<real>, f: real -> real, lo: nat, hi: nat) returns (partial: real)
    requires lo <= hi <= |us|
    ensures partial == Sum(Evaluate(f, us)[lo..hi])
  {
    ghost var fxs := Evaluate(f, us);
    partial := 0.0;
    var i := lo;
    assert fxs[lo..lo] == [];
    while i < hi
      invariant lo <= i <= hi
      invariant partial == Sum(fxs[lo..i])
    {
      var fx := f(Sample(us[i]));
      SumSliceStep(fxs, lo, i);
      partial := partial + fx;
      i := i + 1;
    }
  }

  /** `monteCarloIntegracion` with `#pragma omp parallel for reduction(+:suma)`:
      each chunk of the index range accumulates into its own copy of `suma`
      starting at zero, and the copies are added into the shared total. The
      result does not depend on how the range is split. */
  method MonteCarloIntegrationReduced(numPuntos: int, invInicial: real, us: seq<real>, f: real -> real,
                                      bounds: seq<nat>)
    returns (rentabilidad: Option<real>)
    requires |us| == DrawCount(numPuntos)
    requires IsPartition(bounds, |us|)
    ensures rentabilidad == IntegralReturn(Sum(Evaluate(f, us)), numPuntos, invInicial)
  {
    ghost var fxs := Evaluate(f, us);
    var suma := 0.0;
    var t := 0;
    assert fxs[..0] == [];
    while t < |bounds| - 1
      invariant 0 <= t <= |bounds| - 1
      invariant suma == Sum(fxs[..bounds[t]])
    {
      var lo, hi := bounds[t], bounds[t + 1];
      var partial := SumChunk(us, f, lo, hi);
      assert fxs[..hi] == fxs[..lo] + fxs[lo..hi];
      SumConcat(fxs[..lo], fxs[lo..hi]);
      suma := suma + partial;
      t := t + 1;
    }
    assert fxs[..|us|] == fxs;
    rentabilidad := IntegralReturn(suma, numPuntos, invInicial);
  }

  /** The per-worker partial sums of the first `t` chunks. */
  function ChunkSums(s: seq<real>, bounds: seq<nat>, t: nat): (c: seq<real>)
    requires IsPartition(bounds, |s|)
    requires t < |bounds|
    ensures |c| == t
    ensures forall k :: 0 <= k < t ==> c[k] == Sum(s[bounds[k]..bounds[k + 1]])
  {
    if t == 0 then [] else ChunkSums(s, bounds, t - 1) + [Sum(s[bounds[t - 1]..bounds[t]])]
  }

  /** The reduction splits the sum over any chunking of the range: adding the
      chunk sums in order gives the sum of all the terms. */
  lemma {:induction false} ChunkedSum(s: seq<real>, bounds: seq<nat>, t: nat)
    requires IsPartition(bounds, |s|)
    requires t < |bounds|
    ensures Sum(s[..bounds[t]]) == Sum(ChunkSums(s, bounds, t))
  {
    if t == 0 {
      assert s[..bounds[0]] == [];
    } else {
      ChunkedSum(s, bounds, t - 1);
      var lo, hi := bounds[t - 1], bounds[t];
      assert s[..hi] == s[..lo] + s[lo..hi];
      SumConcat(s[..lo], s[lo..hi]);
      var c := ChunkSums(s, bounds, t);
      assert c[..|c| - 1] == ChunkSums(s, bounds, t - 1);
    }
  }

  /** `reduction(+:suma)`: however the index range is split among the
      workers, adding their partial sums gives the sum of all the terms. */
  lemma {:induction false} ReductionSplitInvariant(s: seq<real>, bounds: seq<nat>)
    requires IsPartition(bounds, |s|)
    ensures Sum(ChunkSums(s, bounds, |bounds| - 1)) == Sum(s)
  {
    ChunkedSum(s, bounds, |bounds| - 1);
    assert s[..|s|] == s;
  }
}
