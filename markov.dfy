/** The Markov chain of yearly market states: the closed state enumeration,
    the fixed 3x3 transition matrix with the per-state return parameters,
    and the inverse-CDF sampler `getNextState` that picks the next state
    from one uniform draw. */
module Markov {
  import opened Numerics

  /** The enum `Estado { alto, bajo, estable }`: high, low and stable
      performance, in that declaration order. */
  datatype State = Alto | Bajo | Estable {

    /** The C enum value of the state, which indexes the matrix rows and
        the parameter arrays. */
    function Index(): (i: nat)
      ensures i < 3
      ensures this == Alto <==> i == 0
      ensures this == Bajo <==> i == 1
    {
      match this
      case Alto => 0
      case Bajo => 1
      case Estable => 2
    }
  }

  /** The cast `(Estado)i` of a column index back to a state. */
  function FromIndex(i: nat): (s: State)
    requires i < 3
    ensures s.Index() == i
  {
    if i == 0 then Alto else if i == 1 then Bajo else Estable
  }

  /** `Matriz[from][to]`: probability of moving from one state to another
      in one year. */
  const Matriz: seq<seq<real>> := [
    [0.8, 0.1, 0.1],
    [0.2, 0.6, 0.2],
    [0.1, 0.1, 0.8]
  ]

  /** Expected annual return per state (`returns`). */
  const Returns: seq<real> := [0.12, -0.05, 0.02]

  /** Standard deviation of the annual return per state (`stdDevs`). */
  const StdDevs: seq<real> := [0.15, 0.10, 0.05]

  /** The per-state return parameters: mean 0.12, -0.05 and 0.02 and
      standard deviation 0.15, 0.10 and 0.05 for `alto`, `bajo` and
      `estable`; every standard deviation is positive. */
  lemma ParameterValues()
    ensures |Returns| == 3 && |StdDevs| == 3
    ensures Returns[Alto.Index()] == 0.12 && StdDevs[Alto.Index()] == 0.15
    ensures Returns[Bajo.Index()] == -0.05 && StdDevs[Bajo.Index()] == 0.10
    ensures Returns[Estable.Index()] == 0.02 && StdDevs[Estable.Index()] == 0.05
    ensures forall s: State :: StdDevs[s.Index()] > 0.0
  {
  }

  /** The row of the transition matrix for state `s`. */
  function Row(s: State): (row: seq<real>)
    ensures |row| == 3
  {
    Matriz[s.Index()]
  }

  /** The running sum `cumulative` after adding the first `k` entries of the
      row of `s`. */
  function Cumulative(s: State, k: nat): real
    requires k <= 3
  {
    Sum(Row(s)[..k])
  }

  /** Column `i` is chosen when the running sum through column `i` strictly
      exceeds the draw `r` (the test `r < cumulative`). */
  predicate Exceeds(s: State, r: real, i: nat)
    requires i < 3
  {
    r < Cumulative(s, i + 1)
  }

  /** A row of a stochastic matrix: entries in [0,1] that sum to one. */
  predicate IsStochasticRow(row: seq<real>)
  {
    (forall j :: 0 <= j < |row| ==> 0.0 <= row[j] <= 1.0) && Sum(row) == 1.0
  }

  /** The running sums of every row, written out. */
  lemma CumulativeValues()
    ensures Cumulative(Alto, 1) == 0.8 && Cumulative(Alto, 2) == 0.9 && Cumulative(Alto, 3) == 1.0
    ensures Cumulative(Bajo, 1) == 0.2 && Cumulative(Bajo, 2) == 0.8 && Cumulative(Bajo, 3) == 1.0
    ensures Cumulative(Estable, 1) == 0.1 && Cumulative(Estable, 2) == 0.2 && Cumulative(Estable, 3) == 1.0
  {
    forall s: State
      ensures Cumulative(s, 1) == Row(s)[0]
      ensures Cumulative(s, 2) == Row(s)[0] + Row(s)[1]
      ensures Cumulative(s, 3) == Row(s)[0] + Row(s)[1] + Row(s)[2]
    {
      var row := Row(s);
      assert row[..3] == row;
      assert row[..3][..2] == row[..2];
      assert row[..2][..1] == row[..1];
      assert row[..1][..0] == [];
    }
  }

  /** The transition matrix is row-stochastic, exactly, over the reals. */
  lemma MatrixRowStochastic()
    ensures |Matriz| == 3
    ensures forall s: State :: IsStochasticRow(Row(s))
  {
    CumulativeValues();
    forall s: State ensures IsStochasticRow(Row(s)) {
      assert Row(s)[..3] == Row(s);
    }
  }

  /** The running sums of a row never decrease and end at exactly one, so
      every threshold lies in [0,1]. */
  lemma CumulativeMonotone(s: State, j: nat, k: nat)
    requires j <= k <= 3
    ensures 0.0 <= Cumulative(s, j) <= Cumulative(s, k) <= Cumulative(s, 3) == 1.0
  {
    CumulativeValues();
    assert Cumulative(s, 0) == 0.0 by {
      assert Row(s)[..0] == [];
    }
  }

  /** The state `getNextState` returns for draw `r`: the first state whose
      running sum strictly exceeds `r`, or the current state when none does. */
  function Successor(s: State, r: real): State
  {
    if Exceeds(s, r, 0) then Alto
    else if Exceeds(s, r, 1) then Bajo
    else if Exceeds(s, r, 2) then Estable
    else s
  }

  /** `getNextState`: walks the row of `current`, accumulating the entries,
      and returns the first column whose running sum strictly exceeds the
      draw `r = rand() / RAND_MAX`; if none does, keeps `current`. */
  method GetNextState(current: State, r: real) returns (next: State)
    ensures next == Successor(current, r)
    ensures forall j :: 0 <= j < next.Index() ==> !Exceeds(current, r, j)
    ensures Exceeds(current, r, next.Index())
            || (next == current && forall j :: 0 <= j < 3 ==> !Exceeds(current, r, j))
  {
    var row := Matriz[current.Index()];
    var cumulative := 0.0;
    assert row[..0] == [];
    for i := 0 to 3
      invariant cumulative == Cumulative(current, i)
      invariant forall j :: 0 <= j < i ==> !Exceeds(current, r, j)
    {
      SumPrefixStep(row, i);
      cumulative := cumulative + row[i];
      if r < cumulative {
        return FromIndex(i);
      }
    }
    return current;
  }

  /** `Successor` is the least index whose running sum exceeds the draw;
      when there is none it is the current state. */
  lemma SuccessorIsFirstExceeding(s: State, r: real)
    ensures forall i :: 0 <= i < 3 && Exceeds(s, r, i) && (forall j :: 0 <= j < i ==> !Exceeds(s, r, j))
              ==> Successor(s, r) == FromIndex(i)
    ensures (forall i :: 0 <= i < 3 ==> !Exceeds(s, r, i)) ==> Successor(s, r) == s
  {
  }

  /** The fallback (no running sum exceeds the draw) happens exactly when the
      draw is at least the full row sum, one: only for `r = 1`, i.e. when
      `rand()` returns `RAND_MAX`. */
  lemma FallbackIffDrawAtLeastOne(s: State, r: real)
    ensures (forall i :: 0 <= i < 3 ==> !Exceeds(s, r, i)) <==> r >= 1.0
  {
    CumulativeValues();
    if forall i :: 0 <= i < 3 ==> !Exceeds(s, r, i) {
      assert !Exceeds(s, r, 2);
    }
    if r >= 1.0 {
      forall i | 0 <= i < 3 ensures !Exceeds(s, r, i) {
        CumulativeMonotone(s, i + 1, 3);
      }
    }
  }

  /** For a draw below one the fallback is never reached: the state returned
      is one whose running sum exceeds the draw. */
  lemma NoFallbackBelowOne(s: State, r: real)
    requires r < 1.0
    ensures Exceeds(s, r, Successor(s, r).Index())
  {
    FallbackIffDrawAtLeastOne(s, r);
  }

  /** From `estable`: r < 0.1 gives `alto`, 0.1 <= r < 0.2 gives `bajo`, and
      every larger draw (including the fallback at 1) gives `estable`. */
  lemma ThresholdsFromEstable(r: real)
    ensures r < 0.1 ==> Successor(Estable, r) == Alto
    ensures 0.1 <= r < 0.2 ==> Successor(Estable, r) == Bajo
    ensures 0.2 <= r ==> Successor(Estable, r) == Estable
  {
    CumulativeValues();
  }

  /** From `alto`: r < 0.8 stays `alto`, 0.8 <= r < 0.9 gives `bajo`,
      0.9 <= r < 1 gives `estable`, and r >= 1 falls back to `alto`. */
  lemma ThresholdsFromAlto(r: real)
    ensures r < 0.8 ==> Successor(Alto, r) == Alto
    ensures 0.8 <= r < 0.9 ==> Successor(Alto, r) == Bajo
    ensures 0.9 <= r < 1.0 ==> Successor(Alto, r) == Estable
    ensures 1.0 <= r ==> Successor(Alto, r) == Alto
  {
    CumulativeValues();
  }

  /** From `bajo`: r < 0.2 gives `alto`, 0.2 <= r < 0.8 stays `bajo`,
      0.8 <= r < 1 gives `estable`, and r >= 1 falls back to `bajo`. */
  lemma ThresholdsFromBajo(r: real)
    ensures r < 0.2 ==> Successor(Bajo, r) == Alto
    ensures 0.2 <= r < 0.8 ==> Successor(Bajo, r) == Bajo
    ensures 0.8 <= r < 1.0 ==> Successor(Bajo, r) == Estable
    ensures 1.0 <= r ==> Successor(Bajo, r) == Bajo
  {
    CumulativeValues();
  }
}
