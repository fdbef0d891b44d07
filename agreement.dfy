/**
 * What the break-even annotation finds on the payoffs of the instruments:
 * over a strictly ascending spot grid that contains the break-even price,
 * with a non-zero quantity and (for options) a positive premium, the
 * annotated spot is exactly the break-even price each payoff function
 * returns; the tie-break rules for several zeros pick the strike of a
 * zero-premium option; and a straddle's synthetic payoff has both of its
 * break-evens reported.
 */
module Agreement {
  import opened Wrappers
  import opened Payoffs
  import opened BreakEven

  predicate StrictlyIncreasing(S: seq<real>) {
    forall i, j :: 0 <= i < j < |S| ==> S[i] < S[j]
  }

  // ---------------------------------------------------------------------
  // Payoffs with one or two zeros

  /** A payoff whose only zero is at `k` has `k` reported, whatever the name. */
  lemma {:induction false} UniqueZeroReported(name: string, P: seq<real>, k: nat)
    requires k < |P| && P[k] == 0.0
    requires forall j :: 0 <= j < |P| && j != k ==> P[j] != 0.0
    ensures CountZeros(P) == 1
    ensures PositionBreakEven(name, P) == Some(k)
    ensures SyntheticBreakEven(P) == [k]
  {
    CountZerosIsCardinality(P, {k});
  }

  /** A payoff whose only zeros are at `i < j` has both reported, in order. */
  lemma {:induction false} TwoZerosReported(P: seq<real>, i: nat, j: nat)
    requires i < j < |P| && P[i] == 0.0 && P[j] == 0.0
    requires forall m :: 0 <= m < |P| && m != i && m != j ==> P[m] != 0.0
    ensures CountZeros(P) == 2
    ensures SyntheticBreakEven(P) == [i, j]
  {
    CountZerosIsCardinality(P, {i, j});
  }

  // ---------------------------------------------------------------------
  // Each instrument's reported break-even is the one its function returns

  lemma StockBreakEvenDetected(name: string, S: seq<real>, buyPrice: real, N: real, k: nat)
    requires StrictlyIncreasing(S) && N != 0.0
    requires k < |S| && S[k] == LongStock(S, buyPrice, N).breakEven
    ensures PositionBreakEven(name, LongStock(S, buyPrice, N).values) == Some(k)
    ensures PositionBreakEven(name, ShortStock(S, buyPrice, N).values) == Some(k)
  {
    forall j | 0 <= j < |S| ensures S[j] == buyPrice <==> j == k {
      StrictOrderInjective(S, j, k);
    }
    forall j | 0 <= j < |S| {
      StockBreakEvenZeros(S[j], buyPrice, N);
    }
    UniqueZeroReported(name, LongStock(S, buyPrice, N).values, k);
    UniqueZeroReported(name, ShortStock(S, buyPrice, N).values, k);
  }

  lemma CallBreakEvenDetected(name: string, S: seq<real>, X: real, N: real, premium: real, k: nat)
    requires StrictlyIncreasing(S) && N != 0.0 && premium > 0.0
    requires k < |S| && S[k] == LongCall(S, X, N, premium).breakEven
    ensures PositionBreakEven(name, LongCall(S, X, N, premium).values) == Some(k)
    ensures PositionBreakEven(name, ShortCall(S, X, N, premium).values) == Some(k)
  {
    forall j | 0 <= j < |S| ensures S[j] == X + premium <==> j == k {
      StrictOrderInjective(S, j, k);
    }
    forall j | 0 <= j < |S| {
      LongCallZeros(S[j], X, N, premium);
    }
    UniqueZeroReported(name, LongCall(S, X, N, premium).values, k);
    UniqueZeroReported(name, ShortCall(S, X, N, premium).values, k);
  }

  lemma PutBreakEvenDetected(name: string, S: seq<real>, X: real, N: real, premium: real, k: nat)
    requires StrictlyIncreasing(S) && N != 0.0 && premium > 0.0
    requires k < |S| && S[k] == LongPut(S, X, N, premium).breakEven
    ensures PositionBreakEven(name, LongPut(S, X, N, premium).values) == Some(k)
    ensures PositionBreakEven(name, ShortPut(S, X, N, premium).values) == Some(k)
  {
    forall j | 0 <= j < |S| ensures S[j] == X - premium <==> j == k {
      StrictOrderInjective(S, j, k);
    }
    forall j | 0 <= j < |S| {
      LongPutZeros(S[j], X, N, premium);
    }
    UniqueZeroReported(name, LongPut(S, X, N, premium).values, k);
    UniqueZeroReported(name, ShortPut(S, X, N, premium).values, k);
  }

  // ---------------------------------------------------------------------
  // Zero premium: the payoff is zero on a whole side of the strike, and the
  // tie-break rules report the strike itself.

  /**
   * A call bought or written for nothing pays zero at every spot up to the
   * strike; a "Call" name reports the last of them, the strike.
   */
  lemma ZeroPremiumCallReportsStrike(name: string, S: seq<real>, X: real, N: real, k: nat)
    requires StrictlyIncreasing(S) && N != 0.0 && Contains(name, "Call")
    requires k < |S| && S[k] == X
    ensures S[k] == LongCall(S, X, N, 0.0).breakEven
    ensures PositionBreakEven(name, LongCall(S, X, N, 0.0).values) == Some(k)
    ensures PositionBreakEven(name, ShortCall(S, X, N, 0.0).values) == Some(k)
  {
    forall j | 0 <= j < |S| ensures S[j] <= X <==> j <= k {
      StrictOrderInjective(S, j, k);
    }
    forall j | 0 <= j < |S| {
      LongCallZeros(S[j], X, N, 0.0);
    }
    LastOfLeadingZerosReported(name, LongCall(S, X, N, 0.0).values, k);
    LastOfLeadingZerosReported(name, ShortCall(S, X, N, 0.0).values, k);
  }

  /**
   * A put bought or written for nothing pays zero at every spot from the
   * strike up; a "Put" name (without "Call") reports the first, the strike.
   */
  lemma ZeroPremiumPutReportsStrike(name: string, S: seq<real>, X: real, N: real, k: nat)
    requires StrictlyIncreasing(S) && N != 0.0
    requires !Contains(name, "Call") && Contains(name, "Put")
    requires k < |S| && S[k] == X
    ensures S[k] == LongPut(S, X, N, 0.0).breakEven
    ensures PositionBreakEven(name, LongPut(S, X, N, 0.0).values) == Some(k)
    ensures PositionBreakEven(name, ShortPut(S, X, N, 0.0).values) == Some(k)
  {
    forall j | 0 <= j < |S| ensures S[j] >= X <==> j >= k {
      StrictOrderInjective(S, j, k);
    }
    forall j | 0 <= j < |S| {
      LongPutZeros(S[j], X, N, 0.0);
    }
    FirstOfTrailingZerosReported(name, LongPut(S, X, N, 0.0).values, k);
    FirstOfTrailingZerosReported(name, ShortPut(S, X, N, 0.0).values, k);
  }

  /** Zeros at exactly the indices up to `k`: a "Call" name reports `k`. */
  lemma LastOfLeadingZerosReported(name: string, P: seq<real>, k: nat)
    requires Contains(name, "Call") && k < |P|
    requires forall j :: 0 <= j < |P| ==> (P[j] == 0.0 <==> j <= k)
    ensures PositionBreakEven(name, P) == Some(k)
  {
    if k == 0 {
      UniqueZeroReported(name, P, k);
    } else {
      TwoZerosCounted(P, 0, k);
    }
  }

  /** Zeros at exactly the indices from `k` on: a "Put" name without "Call" reports `k`. */
  lemma FirstOfTrailingZerosReported(name: string, P: seq<real>, k: nat)
    requires !Contains(name, "Call") && Contains(name, "Put") && k < |P|
    requires forall j :: 0 <= j < |P| ==> (P[j] == 0.0 <==> j >= k)
    ensures PositionBreakEven(name, P) == Some(k)
  {
    if k == |P| - 1 {
      UniqueZeroReported(name, P, k);
    } else {
      TwoZerosCounted(P, k, |P| - 1);
    }
  }

  // ---------------------------------------------------------------------
  // A synthetic position: the long straddle

  /** The "Synthetic Position" column of two positions: their elementwise sum. */
  function SumPayoffs(A: seq<real>, B: seq<real>): (r: seq<real>)
    requires |A| == |B|
    ensures |r| == |A|
    ensures forall i :: 0 <= i < |A| ==> r[i] == A[i] + B[i]
  {
    seq(|A|, i requires 0 <= i < |A| => A[i] + B[i])
  }

  /**
   * A call and a put on the same strike, bought for premiums `c` and `q`,
   * together pay zero exactly `c + q` away from the strike on either side.
   */
  lemma StraddleZeros(s: real, X: real, N: real, c: real, q: real)
    requires N != 0.0 && c + q > 0.0
    ensures LongCallAt(s, X, N, c) + LongPutAt(s, X, N, q) == 0.0
      <==> s == X - (c + q) || s == X + (c + q)
  {
    var a := Max(0.0, s - X) + Max(0.0, X - s) - (c + q);
    assert LongCallAt(s, X, N, c) + LongPutAt(s, X, N, q) == a * N;
    if a * N == 0.0 {
      ZeroProduct(a, N);
    }
  }

  /**
   * Over a strictly ascending grid holding both break-evens of a long
   * straddle, the synthetic annotation reports exactly those two spots.
   */
  lemma StraddleReportsBothBreakEvens(S: seq<real>, X: real, N: real, c: real, q: real, i: nat, j: nat)
    requires StrictlyIncreasing(S) && N != 0.0 && c + q > 0.0
    requires i < |S| && S[i] == X - (c + q)
    requires j < |S| && S[j] == X + (c + q)
    ensures i < j
    ensures SyntheticBreakEven(SumPayoffs(LongCall(S, X, N, c).values, LongPut(S, X, N, q).values)) == [i, j]
  {
    StrictOrderInjective(S, i, j);
    var P := SumPayoffs(LongCall(S, X, N, c).values, LongPut(S, X, N, q).values);
    forall m | 0 <= m < |S| ensures P[m] == 0.0 <==> m == i || m == j {
      StraddleZeros(S[m], X, N, c, q);
      StrictOrderInjective(S, m, i);
      StrictOrderInjective(S, m, j);
    }
    TwoZerosReported(P, i, j);
  }

  /** On a strictly ascending grid, spots compare as their indices do. */
  lemma StrictOrderInjective(S: seq<real>, i: nat, j: nat)
    requires StrictlyIncreasing(S) && i < |S| && j < |S|
    ensures S[i] == S[j] <==> i == j
    ensures S[i] < S[j] <==> i < j
  {}
}
