/**
 * Payoffs at expiration (t = T) of the basic positions: stock, zero-coupon
 * bond, call and put, each held long or short.
 *
 * Every instrument is a per-spot formula applied to each price of the spot
 * grid `S`; the ones that report a break-even price return it beside the
 * payoff sequence.  Prices, quantities and premiums are exact reals.
 */
module Payoffs {

  /** A payoff sequence aligned with the spot grid, and its break-even price. */
  datatype Payoff = Payoff(values: seq<real>, breakEven: real)

  function Max(a: real, b: real): real {
    if a >= b then a else b
  }

  /** Applies the per-spot formula `f` to every spot price, keeping the order. */
  function MapSpots(S: seq<real>, f: real -> real): (r: seq<real>)
    ensures |r| == |S|
    ensures forall i :: 0 <= i < |S| ==> r[i] == f(S[i])
  {
    if S == [] then [] else [f(S[0])] + MapSpots(S[1..], f)
  }

  predicate NonDecreasing(s: seq<real>) {
    forall i, j :: 0 <= i < j < |s| ==> s[i] <= s[j]
  }

  predicate NonIncreasing(s: seq<real>) {
    forall i, j :: 0 <= i < j < |s| ==> s[i] >= s[j]
  }

  // ---------------------------------------------------------------------
  // Per-spot formulas

  function LongStockAt(s: real, buyPrice: real, N: real): real {
    (s - buyPrice) * N
  }

  function ShortStockAt(s: real, buyPrice: real, N: real): real {
    -(s - buyPrice) * N
  }

  function LongCallAt(s: real, X: real, N: real, premium: real): real {
    (Max(0.0, s - X) - premium) * N
  }

  function ShortCallAt(s: real, X: real, N: real, premium: real): real {
    -(Max(0.0, s - X) - premium) * N
  }

  function LongPutAt(s: real, X: real, N: real, premium: real): real {
    (Max(0.0, X - s) - premium) * N
  }

  function ShortPutAt(s: real, X: real, N: real, premium: real): real {
    -(Max(0.0, X - s) - premium) * N
  }

  // ---------------------------------------------------------------------
  // The instruments

  /** Long `N` shares bought at `buyPrice`; the break-even is the buy price. */
  function LongStock(S: seq<real>, buyPrice: real, N: real): (r: Payoff)
    ensures |r.values| == |S| && r.breakEven == buyPrice
    ensures forall i :: 0 <= i < |S| ==> r.values[i] == (S[i] - buyPrice) * N
  {
    Payoff(MapSpots(S, s => LongStockAt(s, buyPrice, N)), buyPrice)
  }

  /** Short `N` shares sold at `buyPrice`; the break-even is the same price. */
  function ShortStock(S: seq<real>, buyPrice: real, N: real): (r: Payoff)
    ensures |r.values| == |S| && r.breakEven == buyPrice
    ensures forall i :: 0 <= i < |S| ==> r.values[i] == -(S[i] - buyPrice) * N
  {
    Payoff(MapSpots(S, s => ShortStockAt(s, buyPrice, N)), buyPrice)
  }

  /** A zero-coupon bond of par value `X` pays `X` whatever the spot. */
  function LongZcb(S: seq<real>, X: real): (r: seq<real>)
    ensures |r| == |S|
    ensures forall i :: 0 <= i < |r| ==> r[i] == X
  {
    seq(|S|, _ => X)
  }

  /** Having issued the bond, one pays `X` whatever the spot. */
  function ShortZcb(S: seq<real>, X: real): (r: seq<real>)
    ensures |r| == |S|
    ensures forall i :: 0 <= i < |r| ==> r[i] == -X
  {
    seq(|S|, _ => -X)
  }

  /** Long `N` calls struck at `X` bought for `premium` each. */
  function LongCall(S: seq<real>, X: real, N: real, premium: real): (r: Payoff)
    ensures |r.values| == |S| && r.breakEven == X + premium
    ensures forall i :: 0 <= i < |S| ==> r.values[i] == LongCallAt(S[i], X, N, premium)
  {
    Payoff(MapSpots(S, s => LongCallAt(s, X, N, premium)), X + premium)
  }

  /** Short `N` calls struck at `X` written for `premium` each. */
  function ShortCall(S: seq<real>, X: real, N: real, premium: real): (r: Payoff)
    ensures |r.values| == |S| && r.breakEven == X + premium
    ensures forall i :: 0 <= i < |S| ==> r.values[i] == ShortCallAt(S[i], X, N, premium)
  {
    Payoff(MapSpots(S, s => ShortCallAt(s, X, N, premium)), X + premium)
  }

  /** Long `N` puts struck at `X` bought for `premium` each. */
  function LongPut(S: seq<real>, X: real, N: real, premium: real): (r: Payoff)
    ensures |r.values| == |S| && r.breakEven == X - premium
    ensures forall i :: 0 <= i < |S| ==> r.values[i] == LongPutAt(S[i], X, N, premium)
  {
    Payoff(MapSpots(S, s => LongPutAt(s, X, N, premium)), X - premium)
  }

  /** Short `N` puts struck at `X` written for `premium` each. */
  function ShortPut(S: seq<real>, X: real, N: real, premium: real): (r: Payoff)
    ensures |r.values| == |S| && r.breakEven == X - premium
    ensures forall i :: 0 <= i < |S| ==> r.values[i] == ShortPutAt(S[i], X, N, premium)
  {
    Payoff(MapSpots(S, s => ShortPutAt(s, X, N, premium)), X - premium)
  }

  /** A worked long call: strike 100, one contract, premium 5. */
  lemma LongCallExample()
    ensures LongCall([80.0, 90.0, 100.0, 110.0, 120.0], 100.0, 1.0, 5.0)
      == Payoff([-5.0, -5.0, -5.0, 5.0, 15.0], 105.0)
  {
  }

  // ---------------------------------------------------------------------
  // Long/short symmetry: the two sides of each trade cancel spot by spot
  // and agree on the break-even price.

  lemma StockSymmetry(S: seq<real>, buyPrice: real, N: real)
    ensures LongStock(S, buyPrice, N).breakEven == ShortStock(S, buyPrice, N).breakEven
    ensures forall i :: 0 <= i < |S| ==>
      LongStock(S, buyPrice, N).values[i] + ShortStock(S, buyPrice, N).values[i] == 0.0
  {}

  lemma ZcbSymmetry(S: seq<real>, X: real)
    ensures |LongZcb(S, X)| == |ShortZcb(S, X)|
    ensures forall i :: 0 <= i < |S| ==> LongZcb(S, X)[i] + ShortZcb(S, X)[i] == 0.0
  {}

  lemma CallSymmetry(S: seq<real>, X: real, N: real, premium: real)
    ensures |LongCall(S, X, N, premium).values| == |ShortCall(S, X, N, premium).values| == |S|
    ensures LongCall(S, X, N, premium).breakEven == ShortCall(S, X, N, premium).breakEven
    ensures forall i :: 0 <= i < |S| ==>
      LongCall(S, X, N, premium).values[i] + ShortCall(S, X, N, premium).values[i] == 0.0
  {}

  lemma PutSymmetry(S: seq<real>, X: real, N: real, premium: real)
    ensures |LongPut(S, X, N, premium).values| == |ShortPut(S, X, N, premium).values| == |S|
    ensures LongPut(S, X, N, premium).breakEven == ShortPut(S, X, N, premium).breakEven
    ensures forall i :: 0 <= i < |S| ==>
      LongPut(S, X, N, premium).values[i] + ShortPut(S, X, N, premium).values[i] == 0.0
  {}

  // ---------------------------------------------------------------------
  // Break-even prices: the reported price is where the payoff is zero, and
  // (for a non-zero quantity and a positive premium) the only such price.

  lemma StockBreakEvenZeros(s: real, buyPrice: real, N: real)
    requires N != 0.0
    ensures LongStockAt(s, buyPrice, N) == 0.0 <==> s == buyPrice
    ensures ShortStockAt(s, buyPrice, N) == 0.0 <==> s == buyPrice
  {}

  /**
   * Where a long call pays nothing: only at `X + premium` when the premium is
   * positive, and at every spot up to the strike when it is zero.
   */
  lemma LongCallZeros(s: real, X: real, N: real, premium: real)
    requires N != 0.0 && premium >= 0.0
    ensures premium > 0.0 ==> (LongCallAt(s, X, N, premium) == 0.0 <==> s == X + premium)
    ensures premium == 0.0 ==> (LongCallAt(s, X, N, premium) == 0.0 <==> s <= X)
    ensures ShortCallAt(s, X, N, premium) == 0.0 <==> LongCallAt(s, X, N, premium) == 0.0
  {
    if LongCallAt(s, X, N, premium) == 0.0 {
      ZeroProduct(Max(0.0, s - X) - premium, N);
    }
  }

  /**
   * Where a long put pays nothing: only at `X - premium` when the premium is
   * positive, and at every spot from the strike up when it is zero.
   */
  lemma LongPutZeros(s: real, X: real, N: real, premium: real)
    requires N != 0.0 && premium >= 0.0
    ensures premium > 0.0 ==> (LongPutAt(s, X, N, premium) == 0.0 <==> s == X - premium)
    ensures premium == 0.0 ==> (LongPutAt(s, X, N, premium) == 0.0 <==> s >= X)
    ensures ShortPutAt(s, X, N, premium) == 0.0 <==> LongPutAt(s, X, N, premium) == 0.0
  {
    if LongPutAt(s, X, N, premium) == 0.0 {
      ZeroProduct(Max(0.0, X - s) - premium, N);
    }
  }

  lemma ZeroProduct(a: real, b: real)
    requires a * b == 0.0 && b != 0.0
    ensures a == 0.0
  {}

  // ---------------------------------------------------------------------
  // Shape of the long call: flat at -premium*N up to the strike, never
  // below that, rising with the spot and crossing zero at X + premium.

  lemma LongCallShape(s: real, X: real, N: real, premium: real)
    requires N >= 0.0
    ensures LongCallAt(s, X, N, premium) >= -premium * N
    ensures s <= X ==> LongCallAt(s, X, N, premium) == -premium * N
    ensures premium >= 0.0 ==> LongCallAt(X + premium, X, N, premium) == 0.0
  {
    assert Max(0.0, s - X) * N >= 0.0;
  }

  lemma LongCallMonotone(s1: real, s2: real, X: real, N: real, premium: real)
    requires N >= 0.0 && s1 <= s2
    ensures LongCallAt(s1, X, N, premium) <= LongCallAt(s2, X, N, premium)
  {
    MulMonotone(Max(0.0, s1 - X) - premium, Max(0.0, s2 - X) - premium, N);
  }

  /** Over an ascending spot grid the long call's payoff sequence ascends too. */
  lemma LongCallPayoffNonDecreasing(S: seq<real>, X: real, N: real, premium: real)
    requires N >= 0.0 && NonDecreasing(S)
    ensures NonDecreasing(LongCall(S, X, N, premium).values)
  {
    var P := LongCall(S, X, N, premium).values;
    forall i, j | 0 <= i < j < |P| ensures P[i] <= P[j] {
      LongCallMonotone(S[i], S[j], X, N, premium);
    }
  }

  // ---------------------------------------------------------------------
  // Shape of the long put: flat at -premium*N from the strike up, never
  // below that, falling as the spot rises and crossing zero at X - premium.

  lemma LongPutShape(s: real, X: real, N: real, premium: real)
    requires N >= 0.0
    ensures LongPutAt(s, X, N, premium) >= -premium * N
    ensures s >= X ==> LongPutAt(s, X, N, premium) == -premium * N
    ensures premium >= 0.0 ==> LongPutAt(X - premium, X, N, premium) == 0.0
  {
    assert Max(0.0, X - s) * N >= 0.0;
  }

  lemma LongPutMonotone(s1: real, s2: real, X: real, N: real, premium: real)
    requires N >= 0.0 && s1 <= s2
    ensures LongPutAt(s1, X, N, premium) >= LongPutAt(s2, X, N, premium)
  {
    MulMonotone(Max(0.0, X - s2) - premium, Max(0.0, X - s1) - premium, N);
  }

  /** Over an ascending spot grid the long put's payoff sequence descends. */
  lemma LongPutPayoffNonIncreasing(S: seq<real>, X: real, N: real, premium: real)
    requires N >= 0.0 && NonDecreasing(S)
    ensures NonIncreasing(LongPut(S, X, N, premium).values)
  {
    var P := LongPut(S, X, N, premium).values;
    forall i, j | 0 <= i < j < |P| ensures P[i] >= P[j] {
      LongPutMonotone(S[i], S[j], X, N, premium);
    }
  }

  lemma MulMonotone(a: real, b: real, n: real)
    requires a <= b && n >= 0.0
    ensures a * n <= b * n
  {
    assert (b - a) * n >= 0.0;
  }
}
