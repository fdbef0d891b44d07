/**
 * The break-even annotation of a payoff diagram: which entries of a payoff
 * sequence are reported as break-even points, for a single position and for
 * the combined "Synthetic Position" column.
 *
 * A payoff sequence is aligned with the spot grid, so a reported index `k`
 * stands for the spot `S[k]` that labels that row of the payoff table.
 * Payoffs are exact reals, so "equal to zero" is exact equality.
 */
module BreakEven {
  import opened Wrappers

  // ---------------------------------------------------------------------
  // Zeros of a payoff sequence

  /** How many entries are exactly zero (the sum of the `isin([0])` mask). */
  function CountZeros(P: seq<real>): (n: nat)
    ensures n <= |P|
    ensures n > 0 <==> exists i :: 0 <= i < |P| && P[i] == 0.0
    decreases |P|
  {
    if P == [] then 0
    else CountZeros(P[..|P| - 1]) + (if P[|P| - 1] == 0.0 then 1 else 0)
  }

  /** The indices of the zero entries in increasing order (`P[P == 0].index`). */
  function ZeroIndices(P: seq<real>): (r: seq<nat>)
    ensures forall k :: 0 <= k < |r| ==> r[k] < |P| && P[r[k]] == 0.0
    ensures forall k, l :: 0 <= k < l < |r| ==> r[k] < r[l]
    ensures forall i :: 0 <= i < |P| && P[i] == 0.0 ==> i in r
    decreases |P|
  {
    if P == [] then []
    else ZeroIndices(P[..|P| - 1]) + (if P[|P| - 1] == 0.0 then [|P| - 1] else [])
  }

  /** The zero count and the index list describe the same zeros. */
  lemma {:induction false} ZeroCountMatchesIndices(P: seq<real>)
    ensures |ZeroIndices(P)| == CountZeros(P)
    decreases |P|
  {
    if P != [] {
      ZeroCountMatchesIndices(P[..|P| - 1]);
    }
  }

  /** The zero count is the number of indices holding a zero. */
  lemma {:induction false} CountZerosIsCardinality(P: seq<real>, Z: set<nat>)
    requires forall i :: i in Z ==> i < |P|
    requires forall i :: 0 <= i < |P| ==> (P[i] == 0.0 <==> i in Z)
    ensures CountZeros(P) == |Z|
    decreases |P|
  {
    if P == [] {
      assert Z == {};
    } else {
      var n := |P| - 1;
      var Z' := Z - {n};
      CountZerosIsCardinality(P[..n], Z');
      if P[n] == 0.0 {
        assert Z == Z' + {n};
      } else {
        assert Z == Z';
      }
    }
  }

  /** The first zero entry (`.index[0]` of the zero rows). */
  function FirstZero(P: seq<real>): (k: nat)
    requires CountZeros(P) > 0
    ensures k < |P| && P[k] == 0.0
    ensures forall j :: 0 <= j < k ==> P[j] != 0.0
  {
    ZeroCountMatchesIndices(P);
    var z := ZeroIndices(P);
    assert forall j :: 0 <= j < z[0] && P[j] == 0.0 ==> j in z;
    z[0]
  }

  /** The last zero entry (`.index[-1]` of the zero rows). */
  function LastZero(P: seq<real>): (k: nat)
    requires CountZeros(P) > 0
    ensures k < |P| && P[k] == 0.0
    ensures forall j :: k < j < |P| ==> P[j] != 0.0
  {
    ZeroCountMatchesIndices(P);
    var z := ZeroIndices(P);
    z[|z| - 1]
  }

  /** With exactly one zero, every zero entry is the first one. */
  lemma {:induction false} SingleZero(P: seq<real>)
    requires CountZeros(P) == 1
    ensures forall j :: 0 <= j < |P| && P[j] == 0.0 ==> j == FirstZero(P)
  {
    ZeroCountMatchesIndices(P);
    var z := ZeroIndices(P);
    forall j | 0 <= j < |P| && P[j] == 0.0 ensures j == FirstZero(P) {
      assert j in z;
    }
  }

  /** Two distinct zero entries make at least two zeros in the count. */
  lemma {:induction false} TwoZerosCounted(P: seq<real>, i: nat, j: nat)
    requires i < j < |P| && P[i] == 0.0 && P[j] == 0.0
    ensures CountZeros(P) >= 2
  {
    ZeroCountMatchesIndices(P);
    var z := ZeroIndices(P);
    assert i in z && j in z;
  }

  // ---------------------------------------------------------------------
  // Position names

  /** `sub` occurs in `s` starting at index `i`. */
  predicate OccursAt(s: string, sub: string, i: nat) {
    i + |sub| <= |s| && s[i..i + |sub|] == sub
  }

  /** Substring test, as Python's `sub in s` on strings. */
  function Contains(s: string, sub: string): (r: bool)
    ensures r <==> exists i: nat :: OccursAt(s, sub, i)
    decreases |s|
  {
    if |s| < |sub| then false
    else if s[..|sub|] == sub then
      assert OccursAt(s, sub, 0);
      true
    else
      var r := Contains(s[1..], sub);
      assert forall i: nat :: OccursAt(s[1..], sub, i) <==> OccursAt(s, sub, i + 1) by {
        forall i: nat ensures OccursAt(s[1..], sub, i) <==> OccursAt(s, sub, i + 1) {
          if i + 1 + |sub| <= |s| {
            assert s[1..][i..i + |sub|] == s[i + 1..i + 1 + |sub|];
          }
        }
      }
      assert !OccursAt(s, sub, 0);
      assert forall i: nat :: OccursAt(s, sub, i) ==> i > 0 && OccursAt(s[1..], sub, i - 1);
      r
  }

  /**
   * The call column names take the "Call" branch of the tie-break.  The
   * names themselves are assumed: the payoff table is built by the caller.
   */
  lemma CallNamesRouting()
    ensures Contains("Long Call", "Call") && !Contains("Long Call", "Put")
    ensures Contains("Short Call", "Call") && !Contains("Short Call", "Put")
  {
    assert OccursAt("Long Call", "Call", 5);
    assert OccursAt("Short Call", "Call", 6);
    MissingFirstLetter("Long Call", "Put");
    MissingFirstLetter("Short Call", "Put");
  }

  /**
   * The put column names take the "Put" branch, not the "Call" one.  The
   * names themselves are assumed: the payoff table is built by the caller.
   */
  lemma PutNamesRouting()
    ensures Contains("Long Put", "Put") && !Contains("Long Put", "Call")
    ensures Contains("Short Put", "Put") && !Contains("Short Put", "Call")
  {
    assert OccursAt("Long Put", "Put", 5);
    assert OccursAt("Short Put", "Put", 6);
    MissingFirstLetter("Long Put", "Call");
    MissingFirstLetter("Short Put", "Call");
  }

  /** A string lacking the first letter of `sub` does not contain `sub`. */
  lemma MissingFirstLetter(s: string, sub: string)
    requires |sub| > 0 && sub[0] !in s
    ensures !Contains(s, sub)
  {
    forall i: nat | i + |sub| <= |s| ensures !OccursAt(s, sub, i) {
      assert s[i..i + |sub|][0] == s[i];
    }
  }

  // ---------------------------------------------------------------------
  // A single position

  /**
   * The break-even reported for one selected position: with several zeros a
   * name containing "Call" reports the last zero and otherwise one containing
   * "Put" the first, and any other name nothing; with exactly one zero that
   * zero; with none, nothing.
   */
  function PositionBreakEven(name: string, P: seq<real>): (r: Option<nat>)
    ensures r.Some? ==> r.value < |P| && P[r.value] == 0.0
    ensures r.None? <==>
      CountZeros(P) == 0 || (CountZeros(P) > 1 && !Contains(name, "Call") && !Contains(name, "Put"))
    ensures CountZeros(P) > 1 && Contains(name, "Call") ==>
      r.Some? && forall j :: r.value < j < |P| ==> P[j] != 0.0
    ensures CountZeros(P) > 1 && !Contains(name, "Call") && Contains(name, "Put") ==>
      r.Some? && forall j :: 0 <= j < r.value ==> P[j] != 0.0
    ensures CountZeros(P) == 1 ==>
      r.Some? && forall j :: 0 <= j < |P| && P[j] == 0.0 ==> j == r.value
  {
    var n := CountZeros(P);
    if n > 1 then
      if Contains(name, "Call") then Some(LastZero(P))
      else if Contains(name, "Put") then Some(FirstZero(P))
      else None
    else if n > 0 then
      SingleZero(P);
      Some(FirstZero(P))
    else None
  }

  // ---------------------------------------------------------------------
  // The synthetic position's plateau search

  /** `P.shift(-1)`: each entry's successor, with no value (NaN) after the last. */
  function ShiftUp(P: seq<real>): (q: seq<Option<real>>)
    ensures |q| == |P|
    ensures forall i {:trigger q[i]} :: 0 <= i < |P| - 1 ==> q[i] == Some(P[i + 1])
    ensures |P| > 0 ==> q[|P| - 1] == None
  {
    seq(|P|, i requires 0 <= i < |P| => if i + 1 < |P| then Some(P[i + 1]) else None)
  }

  /**
   * Forward fill ("pad"): a missing value takes the last value present before
   * it, or `prev` when there is none.
   */
  function ForwardFill(q: seq<Option<real>>, prev: Option<real>): (r: seq<Option<real>>)
    ensures |r| == |q|
    ensures forall i :: 0 <= i < |q| && q[i].Some? ==> r[i] == q[i]
    ensures |q| > 0 && q[0].None? ==> r[0] == prev
    ensures forall i :: 0 < i < |q| && q[i].None? ==> r[i] == r[i - 1]
  {
    if q == [] then []
    else
      var v := if q[0].Some? then q[0] else prev;
      [v] + ForwardFill(q[1..], v)
  }

  /** Elementwise `P == q`, where a missing value (NaN) equals nothing. */
  function Lagged(P: seq<real>, q: seq<Option<real>>): (b: seq<bool>)
    requires |q| == |P|
    ensures |b| == |P|
    ensures forall i {:trigger b[i]} :: 0 <= i < |P| ==> (b[i] <==> q[i] == Some(P[i]))
  {
    seq(|P|, i requires 0 <= i < |P| => q[i].Some? && P[i] == q[i].value)
  }

  /** `.where(b == True).first_valid_index()`: the first true entry, if any. */
  function FirstTrue(b: seq<bool>): (r: Option<nat>)
    ensures r.Some? ==> r.value < |b| && b[r.value] && forall j :: 0 <= j < r.value ==> !b[j]
    ensures r.None? ==> forall j :: 0 <= j < |b| ==> !b[j]
  {
    if b == [] then None
    else if b[0] then Some(0)
    else match FirstTrue(b[1..])
      case None => None
      case Some(k) => Some(k + 1)
  }

  /**
   * `P == P.shift(-1)` with the missing successor of the last entry left
   * missing: each entry is compared with its successor, and the last entry
   * matches nothing.
   */
  function SuccessorMatches(P: seq<real>): (b: seq<bool>)
    ensures |b| == |P|
    ensures forall j :: 0 <= j < |P| - 1 ==> (b[j] <==> P[j] == P[j + 1])
    ensures |P| > 0 ==> !b[|P| - 1]
  {
    Lagged(P, ShiftUp(P))
  }

  /**
   * The first index whose payoff equals its successor's; the last entry has
   * no successor and never matches.
   */
  function FirstPlateau(P: seq<real>): (r: Option<nat>)
    ensures r.Some? ==>
      r.value + 1 < |P| && P[r.value] == P[r.value + 1]
      && forall j :: 0 <= j < r.value ==> P[j] != P[j + 1]
    ensures r.None? <==> forall j :: 0 <= j < |P| - 1 ==> P[j] != P[j + 1]
  {
    var b := SuccessorMatches(P);
    var r := FirstTrue(b);
    assert r.None? ==> forall j :: 0 <= j < |P| - 1 ==> !b[j];
    r
  }

  /**
   * The break-evens reported for the synthetic position: both zeros when
   * there are exactly two; with more, the first plateau index (if any);
   * with exactly one, that zero; with none, nothing.
   */
  function SyntheticBreakEven(P: seq<real>): (r: seq<nat>)
    ensures CountZeros(P) == 0 ==> r == []
    ensures CountZeros(P) == 1 ==>
      |r| == 1 && r[0] < |P| && P[r[0]] == 0.0
      && forall j :: 0 <= j < |P| && P[j] == 0.0 ==> j == r[0]
    ensures CountZeros(P) == 2 ==>
      |r| == 2 && r[0] < r[1] < |P| && P[r[0]] == 0.0 && P[r[1]] == 0.0
      && forall j :: 0 <= j < |P| && P[j] == 0.0 ==> j == r[0] || j == r[1]
    ensures CountZeros(P) > 2 ==>
      |r| <= 1
      && (|r| == 1 <==> exists j :: 0 <= j < |P| - 1 && P[j] == P[j + 1])
      && (|r| == 1 ==>
            r[0] + 1 < |P| && P[r[0]] == P[r[0] + 1]
            && forall j :: 0 <= j < r[0] ==> P[j] != P[j + 1])
  {
    var n := CountZeros(P);
    if n == 2 then
      ZeroCountMatchesIndices(P);
      ZeroIndices(P)
    else if n > 1 then
      match FirstPlateau(P)
      case Some(k) => [k]
      case None => []
    else if n > 0 then
      SingleZero(P);
      [FirstZero(P)]
    else []
  }

  // ---------------------------------------------------------------------
  // The whole diagram

  const SyntheticColumn: string := "Synthetic Position"

  /** The break-evens annotated on one diagram. */
  datatype Annotations = Annotations(positions: seq<Option<nat>>, synthetic: Option<seq<nat>>)

  /**
   * One break-even (or none) per selected position in the order selected,
   * and the synthetic position's break-evens exactly when the payoff table
   * has that column.  Every selected name must be a column of the table.
   * The synthetic column uses the corrected plateau rule of
   * `SyntheticBreakEven`, not the forward-filled one the code runs.
   */
  function GraphBreakEvens(selected: seq<string>, table: map<string, seq<real>>): (r: Annotations)
    requires forall p :: p in selected ==> p in table
    ensures |r.positions| == |selected|
    ensures forall i :: 0 <= i < |selected| ==>
      r.positions[i] == PositionBreakEven(selected[i], table[selected[i]])
    ensures r.synthetic.Some? <==> SyntheticColumn in table
    ensures SyntheticColumn in table ==> r.synthetic.value == SyntheticBreakEven(table[SyntheticColumn])
  {
    Annotations(
      seq(|selected|, i requires 0 <= i < |selected| => PositionBreakEven(selected[i], table[selected[i]])),
      if SyntheticColumn in table then Some(SyntheticBreakEven(table[SyntheticColumn])) else None)
  }

  // ---------------------------------------------------------------------
  // The plateau search as written: `P.shift(-1).replace(np.nan)` with no
  // replacement value forward-fills the missing successor of the last entry
  // with the last value present before it, which is the last entry's own
  // value, so the last entry is compared with itself.

  /**
   * `P == P.shift(-1).replace(np.nan)`: as `SuccessorMatches`, except that
   * the forward fill gives the last entry (of a sequence of two or more) its
   * own value as successor, so it always matches.
   */
  function PaddedSuccessorMatches(P: seq<real>): (b: seq<bool>)
    ensures |b| == |P|
    ensures forall j :: 0 <= j < |P| - 1 ==> (b[j] <==> P[j] == P[j + 1])
    ensures |P| > 0 ==> (b[|P| - 1] <==> |P| >= 2)
  {
    var q := ForwardFill(ShiftUp(P), None);
    assert |P| >= 2 ==> q[|P| - 1] == q[|P| - 2] == Some(P[|P| - 1]);
    Lagged(P, q)
  }

  /** The plateau search as written: the first true entry of the padded comparison. */
  function PaddedFirstPlateau(P: seq<real>): (r: Option<nat>)
    ensures |P| >= 2 ==> r.Some?
  {
    var b := PaddedSuccessorMatches(P);
    assert |P| >= 2 ==> b[|P| - 1];
    FirstTrue(b)
  }

  /**
   * The synthetic break-evens as the code computes them (with the fill):
   * with more than two zeros, the first plateau if there is one and
   * otherwise the last index.
   */
  function SyntheticBreakEvenAsWritten(P: seq<real>): (r: seq<nat>)
    ensures CountZeros(P) > 2 ==> |r| == 1
    ensures CountZeros(P) > 2 ==>
      r == [if FirstPlateau(P).Some? then FirstPlateau(P).value else |P| - 1]
    ensures CountZeros(P) <= 2 ==> r == SyntheticBreakEven(P)
  {
    var n := CountZeros(P);
    if n > 2 then
      PaddedPlateauFallsBackToLast(P);
      match PaddedFirstPlateau(P)
      case Some(k) => [k]
      case None => []
    else SyntheticBreakEven(P)
  }

  /**
   * The fill changes the plateau search only where no true plateau exists:
   * there the last index is reported.
   */
  lemma PaddedPlateauFallsBackToLast(P: seq<real>)
    ensures FirstPlateau(P).Some? ==> PaddedFirstPlateau(P) == FirstPlateau(P)
    ensures FirstPlateau(P).None? && |P| >= 2 ==> PaddedFirstPlateau(P) == Some(|P| - 1)
  {
    var b := SuccessorMatches(P);
    var b' := PaddedSuccessorMatches(P);
    if |P| >= 2 {
      PrefixFirstTrue(b, b', |P| - 1);
    } else {
      assert b' == b;
    }
  }

  /**
   * Two flag sequences that agree before index `m`, where the second is
   * true, have the same first true entry before `m`, and otherwise the
   * second's is `m`.
   */
  lemma PrefixFirstTrue(b: seq<bool>, b': seq<bool>, m: nat)
    requires m < |b| == |b'| && b'[m]
    requires forall j :: 0 <= j < m ==> b[j] == b'[j]
    ensures FirstTrue(b).Some? && FirstTrue(b).value < m ==> FirstTrue(b') == FirstTrue(b)
    ensures (FirstTrue(b).None? || FirstTrue(b).value >= m) ==> FirstTrue(b') == Some(m)
  {
    var r := FirstTrue(b);
    var r' := FirstTrue(b');
    assert r'.Some? && r'.value <= m;
  }

  /**
   * Zeros at 0, 2 and 4 and no two equal neighbours: the code reports the
   * last spot, whose payoff is 2, as a break-even; the plateau search with
   * the last entry left unmatched reports nothing.
   */
  lemma AsWrittenReportsNonZeroLastSpot()
    ensures var P := [0.0, 1.0, 0.0, 1.0, 0.0, 2.0];
      SyntheticBreakEvenAsWritten(P) == [5] && P[5] != 0.0 && SyntheticBreakEven(P) == []
  {
    var P := [0.0, 1.0, 0.0, 1.0, 0.0, 2.0];
    TwoZerosCounted(P, 0, 2);
    assert CountZeros(P) != 2 by {
      assert CountZeros(P) == CountZeros(P[..5]);
      assert P[..5][..4] == P[..4];
      assert CountZeros(P[..4]) >= 2 by { TwoZerosCounted(P[..4], 0, 2); }
    }
    PaddedPlateauFallsBackToLast(P);
    assert FirstPlateau(P).None?;
  }

  /** The plateau heuristic can report a spot whose payoff is not zero. */
  lemma PlateauNeedNotBeZero()
    ensures var P := [5.0, 5.0, 0.0, 1.0, 0.0, 1.0, 0.0];
      SyntheticBreakEven(P) == [0] && P[0] != 0.0
  {
    var P := [5.0, 5.0, 0.0, 1.0, 0.0, 1.0, 0.0];
    assert CountZeros(P) != 2 by {
      assert P[..6][..5] == P[..5];
      assert CountZeros(P[..5]) >= 2 by { TwoZerosCounted(P[..5], 2, 4); }
    }
    TwoZerosCounted(P, 2, 4);
    assert FirstPlateau(P) == Some(0);
  }
}
