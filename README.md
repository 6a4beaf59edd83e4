# Investment simulator: verified model of the deterministic core

The repository estimates the return and uncertainty of an investment over a
ten-year horizon (`Plazo`) in two ways, and blends them:

- a Monte Carlo integration (`monteCarloIntegracion`): `NUM_SIMULACIONES`
  points `x` drawn uniformly in [0,1], the kernel `exp(-x*x)` averaged into an
  integral estimate, which is then read as a growth rate on the initial
  investment `invInicial` and reported as a percentage return;
- a Markov-chain simulation: each of `NUM_SIMULACIONES` paths starts in state
  `estable` with value `invInicial`; every year it moves to a new state with
  `getNextState` (an inverse-CDF lookup in the fixed 3x3 matrix `Matriz`),
  draws the year's return with `generateNormal(returns[s], stdDevs[s])` and
  multiplies the value by `1 + annualReturn`. The mean terminal value becomes
  the Markov percentage return.

`main` then reports the midpoint of the two percentages (`rentabilidadFinal`)
and their absolute difference (`incertidumbre`). `simulacionesSecuencial.c`
runs everything sequentially with `invInicial = 10000`;
`simulacionesMonteCarlo.c` reads `invInicial` from the console, sums the
integration samples with an OpenMP `reduction(+:suma)` and runs the path loop
with `#pragma omp parallel for`. The matrix, the parameter arrays,
`getNextState`, `generateNormal` and the integration arithmetic are the same
text in both files; the model defines each of them once.

The model works over Dafny `real`. Every random number is an explicit input:
the transition draw `r = rand() / RAND_MAX` and the standard normal variate
`z0` of each path year (`Paths.Year`), the stream of `rand() / RAND_MAX` values
consumed by `generateNormal`'s rejection loop, and the integration draws. The
transcendental parts are parameters: the Box–Muller transform
`sqrt(-2 log u1) cos(2 pi u2)` (where the C variable `pi` is
`atan2(1, 0) * 4`, which is 2π, so the cosine's argument is 4π·u2) and the kernel `exp(-x*x)` are functions passed
in. A C division by zero (no integration points, or a zero initial investment)
is modelled as `Numerics.None`, standing for the NaN or infinity the double
arithmetic produces.

Modules, one per component: `Numerics` (Option, sums, products, means),
`Markov` (states, matrix, sampler), `Variates` (normal generator), `Paths`
(one path), `Integration` (the integration estimator, sequential and reduced),
`Aggregate` (the two `main` functions).

## Model

| member | source | states |
|---|---|---|
| `Markov.State.Index` | simulacionesSecuencial.c:9 | every state is one of `alto`, `bajo`, `estable`, with enum values 0, 1 and 2 in declaration order |
| `Markov.FromIndex` | simulacionesSecuencial.c:29 | the cast `(Estado)i` of a column index 0..2 gives the state whose enum value is `i` |
| `Markov.MatrixRowStochastic` | simulacionesSecuencial.c:12-16 | `Matriz` has three rows, each with entries in [0,1] summing to exactly 1 |
| `Markov.CumulativeMonotone` | simulacionesMonteCarlo.c:13-17 | the running sums along any row never decrease, start at 0 and end at exactly 1 |
| `Markov.CumulativeValues` | simulacionesSecuencial.c:25-28 | the running sums of the three rows are 0.8/0.9/1, 0.2/0.8/1 and 0.1/0.2/1 |
| `Markov.ParameterValues` | simulacionesSecuencial.c:19-20 | `returns` is {0.12, -0.05, 0.02} and `stdDevs` is {0.15, 0.10, 0.05} for `alto`, `bajo`, `estable`; every standard deviation is positive |
| `Markov.GetNextState` | simulacionesSecuencial.c:23-33 | the returned state is the first column whose running sum strictly exceeds `r`, no earlier column exceeds it, and when none does the current state is returned |
| `Markov.SuccessorIsFirstExceeding` | simulacionesMonteCarlo.c:24-31 | the sampler's state is the least index whose running sum exceeds the draw, or the current state when none does |
| `Markov.FallbackIffDrawAtLeastOne` | simulacionesSecuencial.c:24-32 | no running sum exceeds the draw exactly when the draw is at least 1 (the draw `rand() == RAND_MAX`) |
| `Markov.NoFallbackBelowOne` | simulacionesMonteCarlo.c:25-33 | for a draw below 1 the returned state is always one whose running sum exceeds the draw |
| `Markov.ThresholdsFromEstable` | simulacionesSecuencial.c:26-30 | from `estable`: r < 0.1 gives `alto`, 0.1 <= r < 0.2 gives `bajo`, r >= 0.2 gives `estable` |
| `Markov.ThresholdsFromAlto` | simulacionesMonteCarlo.c:27-31 | from `alto`: r < 0.8 `alto`, r < 0.9 `bajo`, r < 1 `estable`, r >= 1 falls back to `alto` |
| `Markov.ThresholdsFromBajo` | simulacionesMonteCarlo.c:27-33 | from `bajo`: r < 0.2 `alto`, r < 0.8 `bajo`, r < 1 `estable`, r >= 1 falls back to `bajo` |
| `Variates.Normal` | simulacionesMonteCarlo.c:45 | the affine step returns the mean when `std` or `z0` is zero, and for positive `std` lies above (below) the mean exactly when `z0` is positive (negative) |
| `Variates.GenerateNormal` | simulacionesSecuencial.c:36-45 | the rejection loop accepts the first strictly positive `u1`, takes the next draw as `u2`, and returns `boxMuller(u1, u2) * std + mean`; it fails only when the stream has no positive draw followed by another draw |
| `Paths.AnnualReturn` | simulacionesSecuencial.c:89 | a year in state `s` returns the state's mean `returns[s]` for a zero standard variate, and lies above (below) that mean exactly when the variate is positive (negative) |
| `Paths.FactorAt` | simulacionesSecuencial.c:88-90 | year `k` compounds by `1 + annualReturn` drawn with the parameters of the state reached after that year's own transition |
| `Paths.CompoundStep` | simulacionesSecuencial.c:88-90 | one year's transition followed by `investmentValue *= (1 + annualReturn)` is the first step of compounding the remaining years' factors from the state just reached |
| `Numerics.CompoundIsProduct` | simulacionesSecuencial.c:86-91 | multiplying an accumulator by each factor in turn ends at the start value times the product of the factors |
| `Paths.SimulatePath` | simulacionesSecuencial.c:83-91 | a path started at (`estable`, `invInicial`) ends with `invInicial` times the product of its `Plazo` yearly factors |
| `Paths.StablePathCompounds` | simulacionesSecuencial.c:86-90 | years whose draws keep the chain in `estable` with zero variate leave the state at `estable` and grow the value by 1.02 a year |
| `Paths.StablePathTerminalValue` | simulacionesMonteCarlo.c:94-102 | such a ten-year path ends at exactly `invInicial * 1.02^10` |
| `Integration.Sample` | simulacionesSecuencial.c:54 | a draw in [0,1] gives a sample point in [a,b] = [0,1] |
| `Integration.PercentReturn` | simulacionesSecuencial.c:61 | the percentage return is non-finite exactly for a zero investment, and otherwise inverts `final = inv * (1 + pct / 100)` |
| `Integration.IntegralReturn` | simulacionesSecuencial.c:59-62 | the investment cancels: the result is `100 (b - a) suma / numPuntos`, non-finite exactly when `numPuntos` or `invInicial` is zero |
| `Integration.IntegralReturnIsMean` | simulacionesSecuencial.c:59-61 | with one draw per point, a positive `numPuntos` and a non-zero investment, the return is `100 (b - a)` times the mean kernel value |
| `Integration.MonteCarloIntegration` | simulacionesSecuencial.c:48-63 | the sequential loop sums the kernel over every sample point; for positive `numPuntos` and non-zero investment the result is `100 (b - a)` times the mean kernel value, 0 for negative `numPuntos` and a non-zero investment |
| `Integration.MonteCarloIntegrationReduced` | simulacionesMonteCarlo.c:49-65 | per-chunk private partial sums added into `suma` give the same result as the sequential sum, whatever the chunking |
| `Integration.SumChunk` | simulacionesMonteCarlo.c:54-59 | a worker's private copy of `suma`, starting at zero, ends as the sum of the kernel values of its chunk of iterations |
| `Integration.ChunkSums` | simulacionesMonteCarlo.c:54-59 | there is one partial sum per chunk, and entry `k` is the sum of the terms of chunk `k` |
| `Integration.ChunkedSum` | simulacionesMonteCarlo.c:54-59 | the sum of the terms before each chunk boundary equals the sum of the partial sums of the chunks before it |
| `Integration.ReductionSplitInvariant` | simulacionesMonteCarlo.c:54 | for any split of the index range, the partial sums add up to the full sum |
| `Numerics.SumConcat` | simulacionesMonteCarlo.c:58 | the sum over a concatenation is the sum of the two partial sums |
| `Numerics.MeanBounds` | simulacionesSecuencial.c:101 | a mean lies between any lower and upper bound of its terms |
| `Aggregate.AverageTerminal` | simulacionesSecuencial.c:97-101 | `averageReturn` is the arithmetic mean of `finalValues[0..NUM_SIMULACIONES)` |
| `Aggregate.AverageWithinTerminalRange` | simulacionesMonteCarlo.c:108-112 | the average terminal value lies within any bounds of the individual terminal values |
| `Aggregate.Blend` | simulacionesSecuencial.c:106 | the blended return lies between the two estimates, at equal distance from both |
| `Aggregate.Uncertainty` | simulacionesSecuencial.c:107 | the uncertainty is non-negative, zero exactly when the estimates agree, and is one of the two differences |
| `Aggregate.UncertaintySymmetric` | simulacionesMonteCarlo.c:118 | the uncertainty does not depend on the order of the estimates |
| `Aggregate.BlendUncertaintyBracket` | simulacionesMonteCarlo.c:117-118 | blend minus half the uncertainty is the smaller estimate, blend plus half is the larger |
| `Aggregate.Combine` | simulacionesSecuencial.c:106-107 | the two estimates are kept, and blend minus (plus) half the uncertainty is the smaller (larger) estimate, so the blend is their midpoint and the uncertainty their distance |
| `Aggregate.SimulatePathsSequential` | simulacionesSecuencial.c:77-94 | the new array holds, at every index `i`, the terminal value of path `i` |
| `Aggregate.SimulateIteration` | simulacionesMonteCarlo.c:91-105 | iteration `i` writes the terminal value of path `i` into `finalValues[i]` and changes no other slot |
| `Aggregate.SimulatePathsInOrder` | simulacionesMonteCarlo.c:87-105 | with the draws of each path fixed by its index, running the iterations in any order that covers every index yields the same array as the sequential loop |
| `Aggregate.EstimateSequential` | simulacionesSecuencial.c:73-107 | with `invInicial = 10000`: the integration return is 100 times the mean kernel value, the Markov return is `(mean terminal - inv) / inv * 100`, the blend is their midpoint and the uncertainty their absolute difference |
| `Aggregate.EstimateParallel` | simulacionesMonteCarlo.c:83-118 | the same four figures for the console-supplied investment, non-finite exactly when the investment is zero; with the draws of each path fixed by its index they do not depend on the chunking of the reduction or on the path order |

## Left out

- `rand`/`srand` and the seeding policy (`seed = i` in the sequential program, `seed = i + omp_get_thread_num()` in the OpenMP one): the C library generator is not modelled; every draw is an explicit input, so a path's draws are whatever the caller supplies for it.
- The race on the C library generator's hidden state when OpenMP threads call `rand` concurrently: thread interleaving inside calls is not modelled.
- `log`, `sqrt`, `cos`, `atan2` and `exp`: transcendental floating-point functions; the Box–Muller transform and the kernel are function parameters. The C `pi = atan2(1.0, 0.0) * 4.0` is 2π rather than π, so `generateNormal` computes `sqrt(-2 ln u1) cos(4π u2)` instead of the textbook `cos(2π u2)`; the result is still a standard normal in distribution, because `2 u2` taken modulo 1 is uniform, and the model leaves the transform abstract either way.
- IEEE-754 rounding: the model computes over exact reals, so `0.8 + 0.1 + 0.1` is exactly 1 and the fallback of `getNextState` is reached only at `r = 1`; with binary64 doubles and round-to-nearest the running sums of this matrix are also exactly 0.8/0.9/1, 0.2/0.8/1 and 0.1/0.2/1, so rounding adds no fallback cases. Only the two divisions by zero (no integration points, or a zero investment) are modelled, as `None`; overflow to infinity (for example a console investment near 1e308, where `invInicial * (1 + integral)` overflows) and non-finite console inputs (`scanf` accepts `inf` and `nan`) are not modelled: the model's results stay finite reals.
- OpenMP scheduling: the path loop is modelled as its iterations run one after another in an arbitrary order covering every index (`Aggregate.SimulatePathsInOrder`), and the reduction as per-chunk partial sums over a split of the range added in chunk order; truly simultaneous execution is not modelled.
- `Paths.SimulatePath`: each year's randomness is given as a (transition draw, standard variate) pair instead of being decoded from the single `rand` stream that `getNextState` and `generateNormal` share; `Variates.GenerateNormal` models how one call consumes that stream.
- `Variates.GenerateNormal`: the draw stream is finite, so the result is `None` when it runs out; the C loop would keep drawing.
- `Aggregate.SimulatePathsInOrder`: independence of the iteration order is proved for draws fixed per path index (one random stream per path). The OpenMP program seeds with `i + omp_get_thread_num()` and shares one generator between threads, so its paths get different draws from the sequential program's, and which draws depends on the schedule; the program as written is neither reproducible nor equal to the sequential one.
- `Aggregate.EstimateParallel`: the same qualification: its figures are independent of the split and the order only under per-path draws, which the C program does not provide.
- `scanf`/`printf` I/O, the historical-return arrays, and the timing via `clock` and `omp_get_wtime`.
- Statistical claims (convergence of the sample mean and variance, the expected integral of about 0.7468): they are not properties of the code.
- Input validation: neither program rejects a non-positive initial investment; the model follows the code, so a negative investment is computed as written and only a zero one yields `None`.
- Uniform draws: `rand() / RAND_MAX` lies in [0,1] and can be exactly 0 or 1; only `u1` is guarded against 0, so `r = 1` and `u2 = 0` can occur, as the model allows.
