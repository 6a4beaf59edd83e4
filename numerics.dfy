/** Real-number helpers shared by the simulator model: an Option type for
    results that the C code would turn into NaN or infinity, and sums,
    products and means folded from the back, the way an accumulating loop
    adds one term per iteration. */
module Numerics {

  /** `None` stands for the non-finite double (NaN or an infinity) that a
      C division by zero produces; `Some(v)` for a finite result `v`. */
  datatype Option<T> = None | Some(value: T)

  /** Sum of the terms of `s`, in index order. */
  function Sum(s: seq<real>): real
  {
    if |s| == 0 then 0.0 else Sum(s[..|s| - 1]) + s[|s| - 1]
  }

  /** Product of the factors of `s`, in index order. */
  function Product(s: seq<real>): real
  {
    if |s| == 0 then 1.0 else Product(s[..|s| - 1]) * s[|s| - 1]
  }

  /** `x` raised to the natural power `n`. */
  function Pow(x: real, n: nat): real
  {
    if n == 0 then 1.0 else Pow(x, n - 1) * x
  }

  /** Scaling a quotient: `c * x / n` is `c` times `x / n`. */
  lemma ScaleQuotient(c: real, x: real, n: real)
    requires n != 0.0
    ensures c * x / n == c * (x / n)
  {
  }

  /** Arithmetic mean of a non-empty sequence. */
  function Mean(s: seq<real>): real
    requires |s| > 0
  {
    Sum(s) / |s| as real
  }

  /** Summation is order-independent over any split of the terms: the sum of
      a concatenation is the sum of the partial sums. */
  lemma {:induction false} SumConcat(a: seq<real>, b: seq<real>)
    ensures Sum(a + b) == Sum(a) + Sum(b)
  {
    if |b| == 0 {
      assert a + b == a;
    } else {
      assert (a + b)[..|a + b| - 1] == a + b[..|b| - 1];
      SumConcat(a, b[..|b| - 1]);
    }
  }

  /** Real multiplication is associative. */
  lemma MulAssoc(a: real, b: real, c: real)
    ensures (a * b) * c == a * (b * c)
  {
  }

  /** Prepending a factor multiplies the product by it. */
  lemma {:induction false} ProductCons(x: real, s: seq<real>)
    ensures Product([x] + s) == x * Product(s)
  {
    if |s| > 0 {
      var init := s[..|s| - 1];
      ProductCons(x, init);
      assert ([x] + s)[..|s|] == [x] + init;
      MulAssoc(x, Product(init), s[|s| - 1]);
    }
  }

  /** `value` multiplied by each factor of `fs` in turn, the way a loop
      compounds an accumulator one factor per iteration. */
  function Compound(value: real, fs: seq<real>): real
    decreases |fs|
  {
    if |fs| == 0 then value else Compound(value * fs[0], fs[1..])
  }

  /** Compounding by the first factor, then by the rest. */
  lemma {:induction false} CompoundFirst(value: real, fs: seq<real>)
    requires |fs| > 0
    ensures Compound(value, fs) == Compound(value * fs[0], fs[1..])
  {
  }

  /** Compounding one factor at a time ends at the start value times the
      product of the factors. */
  lemma {:induction false} CompoundIsProduct(value: real, fs: seq<real>)
    ensures Compound(value, fs) == value * Product(fs)
    decreases |fs|
  {
    if |fs| > 0 {
      CompoundFirst(value, fs);
      CompoundIsProduct(value * fs[0], fs[1..]);
      ProductCons(fs[0], fs[1..]);
      assert [fs[0]] + fs[1..] == fs;
      MulAssoc(value, fs[0], Product(fs[1..]));
    }
  }

  /** Extending a prefix by one term adds that term to the sum. */
  lemma {:induction false} SumPrefixStep(s: seq<real>, i: nat)
    requires i < |s|
    ensures Sum(s[..i + 1]) == Sum(s[..i]) + s[i]
  {
    assert s[..i + 1][..i] == s[..i];
  }

  /** Extending a slice `s[lo..i]` by one term adds that term to the sum. */
  lemma {:induction false} SumSliceStep(s: seq<real>, lo: nat, i: nat)
    requires lo <= i < |s|
    ensures Sum(s[lo..i + 1]) == Sum(s[lo..i]) + s[i]
  {
    assert s[lo..i + 1][..i - lo] == s[lo..i];
  }

  /** Bounds on every term bound the sum: `|s| * lo <= Sum(s) <= |s| * hi`. */
  lemma {:induction false} SumBounds(s: seq<real>, lo: real, hi: real)
    requires forall i :: 0 <= i < |s| ==> lo <= s[i] <= hi
    ensures |s| as real * lo <= Sum(s) <= |s| as real * hi
  {
    if |s| > 0 {
      var init := s[..|s| - 1];
      assert forall i :: 0 <= i < |init| ==> init[i] == s[i];
      SumBounds(init, lo, hi);
    }
  }

  /** The mean lies between any lower and upper bound of the terms. */
  lemma {:induction false} MeanBounds(s: seq<real>, lo: real, hi: real)
    requires |s| > 0
    requires forall i :: 0 <= i < |s| ==> lo <= s[i] <= hi
    ensures lo <= Mean(s) <= hi
  {
    SumBounds(s, lo, hi);
    var n := |s| as real;
    assert Sum(s) / n >= lo by {
      assert Sum(s) >= n * lo;
    }
    assert Sum(s) / n <= hi by {
      assert Sum(s) <= n * hi;
    }
  }
}
