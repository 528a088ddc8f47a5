/** Cumulative profit and drawdown of a series of settled bets (backtesting/engine.py, football_scores.py). */
module EquityCurves {
  import opened Aggregates

  function Identity(x: real): real { x }

  /** E_n, the equity after the first n bets; E_0 is zero. */
  function Equity(profits: seq<real>, n: nat): real
    requires n <= |profits|
  {
    SumBy(profits[..n], Identity)
  }

  /** d is the greatest of the falls E_i - E_j with i <= j. */
  ghost predicate IsMaximumDrawdown(profits: seq<real>, d: real) {
    && (exists i, j :: 0 <= i <= j <= |profits| && Equity(profits, i) - Equity(profits, j) == d)
    && forall i, j :: 0 <= i <= j <= |profits| ==> Equity(profits, i) - Equity(profits, j) <= d
  }

  /** No equity up to n exceeds the peak. */
  ghost predicate Peaks(profits: seq<real>, n: nat, peak: real)
    requires n <= |profits|
  {
    forall i :: 0 <= i <= n ==> Equity(profits, i) <= peak
  }

  /** No fall up to n exceeds d. */
  ghost predicate Falls(profits: seq<real>, n: nat, d: real)
    requires n <= |profits|
  {
    forall i, j :: 0 <= i <= j <= n ==> Equity(profits, i) - Equity(profits, j) <= d
  }

  lemma FallsGrow(profits: seq<real>, n: nat, peak: real, d: real)
    requires n < |profits| && Peaks(profits, n, peak) && Falls(profits, n, d)
    requires peak - Equity(profits, n + 1) <= d && d >= 0.0
    ensures Falls(profits, n + 1, d)
  {
    hide Equity;
    forall i, j | 0 <= i <= j <= n + 1 ensures Equity(profits, i) - Equity(profits, j) <= d {
    }
  }

  lemma MaximumDrawdownUnique(profits: seq<real>, d: real, e: real)
    requires IsMaximumDrawdown(profits, d) && IsMaximumDrawdown(profits, e)
    ensures d == e
  {
    var i, j :| 0 <= i <= j <= |profits| && Equity(profits, i) - Equity(profits, j) == d;
    var k, m :| 0 <= k <= m <= |profits| && Equity(profits, k) - Equity(profits, m) == e;
  }

  lemma EquityStep(profits: seq<real>, n: nat)
    requires n < |profits|
    ensures Equity(profits, n + 1) == Equity(profits, n) + profits[n]
  {
    TakeStep(profits, n);
  }

  /** The loop over the bets: running equity, its peak, and the greatest fall from the peak. */
  method Curve(profits: seq<real>) returns (cumulative: seq<real>, maximumDrawdown: real)
    ensures |cumulative| == |profits| && forall k :: 0 <= k < |profits| ==> cumulative[k] == Equity(profits, k + 1)
    ensures IsMaximumDrawdown(profits, maximumDrawdown)
  {
    hide Equity, Peaks, Falls;
    var equity, peak := 0.0, 0.0;
    cumulative, maximumDrawdown := [], 0.0;
    StartsAtZero(profits);
    ghost var top, high, low := 0, 0, 0;
    for n := 0 to |profits|
      invariant equity == Equity(profits, n)
      invariant |cumulative| == n && forall k :: 0 <= k < n ==> cumulative[k] == Equity(profits, k + 1)
      invariant 0 <= top <= n && peak == Equity(profits, top) && Peaks(profits, n, peak)
      invariant 0 <= high <= low <= n && 0.0 <= maximumDrawdown == Equity(profits, high) - Equity(profits, low)
      invariant Falls(profits, n, maximumDrawdown)
    {
      EquityStep(profits, n);
      ghost var before, fallen := peak, maximumDrawdown;
      equity := equity + profits[n];
      cumulative := cumulative + [equity];
      if equity > peak {
        peak, top := equity, n + 1;
      }
      if peak - equity > maximumDrawdown {
        maximumDrawdown := peak - equity;
        high, low := top, n + 1;
      }
      PeaksGrow(profits, n, before, peak);
      FallsWiden(profits, n, fallen, maximumDrawdown);
      FallsGrow(profits, n, before, maximumDrawdown);
    }
    FallsAtEnd(profits, maximumDrawdown);
  }

  lemma PeaksGrow(profits: seq<real>, n: nat, before: real, peak: real)
    requires n < |profits| && Peaks(profits, n, before) && before <= peak && Equity(profits, n + 1) <= peak
    ensures Peaks(profits, n + 1, peak)
  {
    hide Equity;
  }

  lemma FallsWiden(profits: seq<real>, n: nat, d: real, e: real)
    requires n < |profits| && Falls(profits, n, d) && d <= e
    ensures Falls(profits, n, e)
  {
    hide Equity;
  }

  lemma FallsAtEnd(profits: seq<real>, d: real)
    requires Falls(profits, |profits|, d)
    ensures forall i, j :: 0 <= i <= j <= |profits| ==> Equity(profits, i) - Equity(profits, j) <= d
  {
  }

  lemma StartsAtZero(profits: seq<real>)
    ensures Equity(profits, 0) == 0.0 && Peaks(profits, 0, 0.0) && Falls(profits, 0, 0.0)
  {
  }

  /** The last cumulative value is the net profit. */
  lemma EndsAtNet(profits: seq<real>)
    ensures Equity(profits, |profits|) == SumBy(profits, Identity)
  {
    assert profits[..|profits|] == profits;
  }

  predicate IsLoss(x: real) { x == -1.0 }

  /** A settled unit bet loses its stake or wins something. */
  predicate UnitSettled(profits: seq<real>) {
    forall x <- profits :: x == -1.0 || x > 0.0
  }

  lemma {:induction false} FallWithinLosses(profits: seq<real>, i: nat, j: nat)
    requires i <= j <= |profits| && UnitSettled(profits)
    ensures Equity(profits, i) - Equity(profits, j) <=
            CountBy(profits[..j], IsLoss) as real - CountBy(profits[..i], IsLoss) as real
    decreases j
  {
    if i < j {
      FallWithinLosses(profits, i, j - 1);
      EquityStep(profits, j - 1);
      TakeStep(profits, j - 1);
      assert profits[j - 1] in profits;
    }
  }

  lemma {:induction false} CountPrefix(profits: seq<real>, n: nat)
    requires n <= |profits|
    ensures CountBy(profits[..n], IsLoss) <= CountBy(profits, IsLoss)
    decreases |profits| - n
  {
    if n < |profits| {
      TakeStep(profits, n);
      CountPrefix(profits, n + 1);
    } else {
      assert profits[..n] == profits;
    }
  }

  /** The drawdown of settled unit bets never exceeds the number of lost ones. */
  lemma DrawdownWithinLosses(profits: seq<real>, d: real)
    requires UnitSettled(profits) && IsMaximumDrawdown(profits, d)
    ensures 0.0 <= d <= CountBy(profits, IsLoss) as real
  {
    var i, j :| 0 <= i <= j <= |profits| && Equity(profits, i) - Equity(profits, j) == d;
    FallWithinLosses(profits, i, j);
    CountPrefix(profits, j);
    assert Equity(profits, 0) - Equity(profits, 0) == 0.0;
  }
}
