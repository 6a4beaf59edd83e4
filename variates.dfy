/** The normal variate generator `generateNormal`: a rejection loop that
    redraws `u1` until it is strictly positive, a second draw `u2`, the
    Box-Muller transform to a standard normal `z0`, and the affine step
    `z0 * std + mean`. The uniform draws come from an explicit stream and
    the transform (square root, logarithm, cosine) is a parameter. */
module Variates {
  import opened Numerics

  /** The affine step: a standard normal variate `z0` scaled by `std` and
      shifted by `mean`. */
  function Normal(mean: real, std: real, z0: real): (x: real)
    ensures std == 0.0 ==> x == mean
    ensures z0 == 0.0 ==> x == mean
    ensures std > 0.0 ==> (x > mean <==> z0 > 0.0)
    ensures std > 0.0 ==> (x < mean <==> z0 < 0.0)
  {
    z0 * std + mean
  }

  /** The outcome of one call: the returned value, the accepted `u1`, the
      `u2` that followed it, and how many draws of the stream were used. */
  datatype Variate = Variate(value: real, u1: real, u2: real, used: nat)

  /** `generateNormal(mean, std)`. `draws` holds the successive values of
      `rand() / RAND_MAX`; `boxMuller(u1, u2)` stands for
      `sqrt(-2 log u1) cos(2 pi u2)` with the C variable `pi`, which is
      `atan2(1, 0) * 4`, that is 2π: the cosine's argument is 4π u2. The result is `None` only when the
      stream ends before a positive `u1` and its `u2` have been drawn. */
  method GenerateNormal(mean: real, std: real, draws: seq<real>, boxMuller: (real, real) -> real)
    returns (v: Option<Variate>)
    ensures v.Some? <==> exists k :: 0 <= k < |draws| - 1 && draws[k] > 0.0
    ensures v.Some? ==>
              && 2 <= v.value.used <= |draws|
              && (forall j :: 0 <= j < v.value.used - 2 ==> draws[j] <= 0.0)
              && v.value.u1 == draws[v.value.used - 2] > 0.0
              && v.value.u2 == draws[v.value.used - 1]
              && v.value.value == Normal(mean, std, boxMuller(v.value.u1, v.value.u2))
  {
    var k := 0;
    var u1 := 0.0;
    // The C do-while redraws u1 until it is positive; u1 starts at 0 so the
    // body runs at least once.
    while u1 <= 0.0
      invariant 0 <= k <= |draws|
      invariant u1 <= 0.0 ==> forall j :: 0 <= j < k ==> draws[j] <= 0.0
      invariant u1 > 0.0 ==> 1 <= k && u1 == draws[k - 1] && forall j :: 0 <= j < k - 1 ==> draws[j] <= 0.0
      decreases |draws| - k
    {
      if k == |draws| {
        return None;
      }
      u1 := draws[k];
      k := k + 1;
    }
    if k == |draws| {
      return None;
    }
    var u2 := draws[k];
    var z0 := boxMuller(u1, u2);
    v := Some(Variate(Normal(mean, std, z0), u1, u2, k + 1));
  }
}
