# Option payoffs at expiration and their break-even annotation

This project models the payoff side of `option_payoffs.py`. The file covers eight positions:

- long and short stock;
- long and short zero-coupon bond;
- long and short call;
- long and short put.

Each position maps a grid of spot prices at expiration `S` to a payoff sequence aligned with `S`. Every position except the bond also returns a break-even price.

The model also covers the part of `graph_payoffs` that decides which spots the payoff diagram marks as break-even points. It does this for each selected position and for the combined "Synthetic Position" column.

Everything in the source is stateless, so the model is built from datatypes, functions and lemmas:

- `wrappers.dfy` (module `Wrappers`) holds the `Option` type.
- `payoffs.dfy` (module `Payoffs`) holds the per-spot formulas, the eight instruments and their properties:
  - long/short symmetry;
  - where each payoff is zero;
  - the floor and the flat region of calls and puts;
  - monotonicity in the spot price.
- `break_even.dfy` (module `BreakEven`) holds the selection rules:
  - counting the zero entries and listing their indices;
  - first and last zero;
  - Python's substring test on the position name;
  - the tie-break for several zeros;
  - the synthetic position's two-zero and "plateau" rules;
  - the annotation of a whole diagram.
- `agreement.dfy` (module `Agreement`) connects the two sides:
  - Over a strictly ascending grid that contains the break-even price, with `N != 0` and, for options, a positive premium, the annotated spot is the break-even price the payoff function returns.
  - For a zero premium, the "Call"/"Put" tie-breaks report the strike.
  - Both break-evens of a long straddle are reported for the synthetic position.

Numbers are exact `real`s, so the source's exact comparisons with zero behave as intended. A reported break-even is an index into the payoff sequence. It stands for the index label of that row of the payoff table, which is the spot `S[k]` when the table is indexed by `S`.

## Model

| member | source | states |
|---|---|---|
| `Payoffs.MapSpots` | option_payoffs.py:52 | `list(map(f, S))`: one result per spot, in order, each `f` of that spot |
| `Payoffs.LongStock` | option_payoffs.py:39-40 | payoff `(S[i] - buy_price) * N` at every spot, same length as `S`, break-even `buy_price` |
| `Payoffs.ShortStock` | option_payoffs.py:42-43 | payoff `-(S[i] - buy_price) * N` at every spot, same length as `S`, break-even `buy_price` |
| `Payoffs.LongZcb` | option_payoffs.py:45-46 | `[X] * len(S)`: length `len(S)`, every entry the par value `X` |
| `Payoffs.ShortZcb` | option_payoffs.py:48-49 | `[-X] * len(S)`: length `len(S)`, every entry `-X` |
| `Payoffs.LongCall` | option_payoffs.py:51-52 | payoff `(max(0, S[i]-X) - premium) * N` at every spot, length `len(S)`, break-even `X + premium` |
| `Payoffs.ShortCall` | option_payoffs.py:54-55 | the negated call payoff at every spot, length `len(S)`, break-even `X + premium` |
| `Payoffs.LongPut` | option_payoffs.py:57-58 | payoff `(max(0, X-S[i]) - premium) * N` at every spot, length `len(S)`, break-even `X - premium` |
| `Payoffs.ShortPut` | option_payoffs.py:60-61 | the negated put payoff at every spot, length `len(S)`, break-even `X - premium` |
| `Payoffs.LongCallExample` | option_payoffs.py:51-52 | strike 100, N = 1, premium 5 over spots 80..120 gives payoffs -5,-5,-5,5,15 and break-even 105 |
| `Payoffs.StockSymmetry` | option_payoffs.py:39-43 | long and short stock payoffs sum to 0 at every spot; same break-even |
| `Payoffs.ZcbSymmetry` | option_payoffs.py:45-49 | long and short bond sequences have equal length and sum to 0 at every spot |
| `Payoffs.CallSymmetry` | option_payoffs.py:51-55 | long and short call: both of length `len(S)`, payoffs sum to 0 at every spot, same break-even |
| `Payoffs.PutSymmetry` | option_payoffs.py:57-61 | long and short put: both of length `len(S)`, payoffs sum to 0 at every spot, same break-even |
| `Payoffs.StockBreakEvenZeros` | option_payoffs.py:39-43 | for `N != 0` a stock payoff is zero exactly at the buy price, the break-even reported |
| `Payoffs.LongCallZeros` | option_payoffs.py:51-55 | for `N != 0` and a positive premium, a call payoff is zero exactly at `X + premium`; with zero premium, exactly at spots up to `X`; long and short are zero at the same spots |
| `Payoffs.LongPutZeros` | option_payoffs.py:57-61 | for `N != 0` and a positive premium, a put payoff is zero exactly at `X - premium`; with zero premium, exactly at spots from `X` up; long and short are zero at the same spots |
| `Payoffs.LongCallShape` | option_payoffs.py:52 | for `N >= 0`: payoff never below `-premium*N`, equal to it at every spot up to `X`, and zero at `X + premium` when the premium is not negative |
| `Payoffs.LongCallMonotone` | option_payoffs.py:52 | for `N >= 0` the long call payoff does not decrease as the spot rises |
| `Payoffs.LongCallPayoffNonDecreasing` | option_payoffs.py:52 | for `N >= 0`, over a non-decreasing spot grid, the long call payoff sequence is non-decreasing |
| `Payoffs.LongPutShape` | option_payoffs.py:58 | for `N >= 0`: payoff never below `-premium*N`, equal to it at every spot from `X` up, and zero at `X - premium` when the premium is not negative |
| `Payoffs.LongPutMonotone` | option_payoffs.py:58 | for `N >= 0` the long put payoff does not increase as the spot rises |
| `Payoffs.LongPutPayoffNonIncreasing` | option_payoffs.py:58 | for `N >= 0`, over a non-decreasing spot grid, the long put payoff sequence is non-increasing |
| `BreakEven.CountZeros` | option_payoffs.py:71 | `isin([0]).sum()`: at most `len(P)`, and positive exactly when some entry is zero |
| `BreakEven.ZeroIndices` | option_payoffs.py:74 | `P[P == 0].index`: strictly increasing in-range indices, each of a zero entry, and every zero entry listed |
| `BreakEven.ZeroCountMatchesIndices` | option_payoffs.py:71-74 | the zero count equals the length of the zero-index list |
| `BreakEven.CountZerosIsCardinality` | option_payoffs.py:71 | the zero count is the number of indices holding a zero |
| `BreakEven.FirstZero` | option_payoffs.py:80 | `.index[0]`: a zero entry with no zero before it |
| `BreakEven.LastZero` | option_payoffs.py:74 | `.index[-1]`: a zero entry with no zero after it |
| `BreakEven.SingleZero` | option_payoffs.py:84-86 | with exactly one zero, every zero entry is the first one |
| `BreakEven.TwoZerosCounted` | option_payoffs.py:71 | two distinct zero entries make the count at least two |
| `BreakEven.Contains` | option_payoffs.py:73 | `sub in s` on strings: true exactly when `sub` occurs at some position of `s` |
| `BreakEven.CallNamesRouting` | option_payoffs.py:73-79 | the assumed column names "Long Call" and "Short Call" contain "Call" and not "Put" |
| `BreakEven.PutNamesRouting` | option_payoffs.py:73-79 | the assumed column names "Long Put" and "Short Put" contain "Put" and not "Call" |
| `BreakEven.PositionBreakEven` | option_payoffs.py:70-87 | any reported index holds a zero. Nothing is reported exactly when there is no zero, or several zeros and a name with neither "Call" nor "Put". With several zeros, "Call" (tested first) reports the last zero and "Put" the first. With one zero, that zero is reported |
| `BreakEven.ShiftUp` | option_payoffs.py:100 | `shift(-1)`: each entry's successor, missing after the last |
| `BreakEven.ForwardFill` | option_payoffs.py:100 | forward fill: present values kept, a missing value takes the previous filled value |
| `BreakEven.Lagged` | option_payoffs.py:100 | elementwise `==` where a missing value (NaN) equals nothing |
| `BreakEven.FirstTrue` | option_payoffs.py:101 | `.where(b == True).first_valid_index()`: the first true entry, or none when all are false |
| `BreakEven.SuccessorMatches` | option_payoffs.py:100 | each entry compared with its successor; the last entry never matches |
| `BreakEven.FirstPlateau` | option_payoffs.py:99-101 | the first `i` with `i+1 < len(P)` and `P[i] == P[i+1]`; none exactly when there is no such `i` |
| `BreakEven.SyntheticBreakEven` | option_payoffs.py:93-108 | no zero: nothing. One zero: that index. Exactly two zeros: both, increasing. More than two: at most one index, present exactly when two neighbours are equal, and then the first such index |
| `BreakEven.GraphBreakEvens` | option_payoffs.py:66-108 | one result per selected position, in order, each by the single-position rule; synthetic break-evens exactly when the table has a "Synthetic Position" column |
| `BreakEven.PaddedSuccessorMatches` | option_payoffs.py:100 | the comparison as written: like `SuccessorMatches`, but the last entry of two or more always matches |
| `BreakEven.PaddedFirstPlateau` | option_payoffs.py:100-101 | the plateau search as written: always finds an index when there are two or more entries |
| `BreakEven.SyntheticBreakEvenAsWritten` | option_payoffs.py:93-108 | the synthetic rule as written: with more than two zeros it reports exactly one index, the first plateau if there is one and otherwise the last index `len(P)-1`; with two zeros or fewer it agrees with `SyntheticBreakEven` |
| `BreakEven.PaddedPlateauFallsBackToLast` | option_payoffs.py:100-101 | as written and intended agree when a plateau exists; otherwise the as-written search reports the last index |
| `BreakEven.AsWrittenReportsNonZeroLastSpot` | option_payoffs.py:99-103 | payoff 0,1,0,1,0,2: as written, index 5 (payoff 2) is reported; as intended, nothing is |
| `BreakEven.PlateauNeedNotBeZero` | option_payoffs.py:99-103 | payoff 5,5,0,1,0,1,0: the plateau rule reports index 0, whose payoff is 5 |
| `Agreement.UniqueZeroReported` | option_payoffs.py:84-108 | a payoff with its only zero at `k` has count 1, and `k` is reported for any name and for the synthetic column |
| `Agreement.TwoZerosReported` | option_payoffs.py:93-97 | a payoff whose only zeros are at `i < j` has count 2 and the synthetic rule reports `[i, j]` |
| `Agreement.StockBreakEvenDetected` | option_payoffs.py:84-87 | over a strictly ascending grid, `N != 0`, the spot equal to the stock break-even (line 40) is the one reported, long and short |
| `Agreement.CallBreakEvenDetected` | option_payoffs.py:84-87 | over a strictly ascending grid, `N != 0`, positive premium: the spot equal to `X + premium` (line 52) is the one reported, long and short |
| `Agreement.PutBreakEvenDetected` | option_payoffs.py:84-87 | over a strictly ascending grid, `N != 0`, positive premium: the spot equal to `X - premium` (line 58) is the one reported, long and short |
| `Agreement.ZeroPremiumCallReportsStrike` | option_payoffs.py:70-75 | zero-premium call over a strictly ascending grid holding `X`: a "Call" name reports the strike's index, which is the break-even, long and short |
| `Agreement.ZeroPremiumPutReportsStrike` | option_payoffs.py:78-82 | zero-premium put over a strictly ascending grid holding `X`: a "Put" name without "Call" reports the strike's index, long and short |
| `Agreement.LastOfLeadingZerosReported` | option_payoffs.py:73-75 | zeros exactly at indices `0..k`: a "Call" name reports `k` |
| `Agreement.FirstOfTrailingZerosReported` | option_payoffs.py:79-82 | zeros exactly at indices `k..len(P)-1`: a "Put" name without "Call" reports `k` |
| `Agreement.StraddleZeros` | option_payoffs.py:93 | long call plus long put on one strike is zero exactly `c + q` either side of the strike (`c` and `q` are the two premiums) |
| `Agreement.StraddleReportsBothBreakEvens` | option_payoffs.py:93-97 | a straddle's synthetic payoff over a strictly ascending grid holding both break-evens: both indices are reported, in increasing order |

## Left out

- `d1`, `d2`, `BSM_Call` and `BSM_Put` (option_payoffs.py:21-35) are left out. They rest on `log`, `sqrt`, `exp` and the normal CDF, which have no exact counterpart over `real`. Put-call parity is not stated for the same reason.
- All matplotlib work in `graph_payoffs` is left out: the figure, plots, scatter markers, axis limits, spines, labels and legend. It is presentation only.
- The y-scale computation is left out. It only feeds the plot.
- The `print` calls that echo each break-even are left out. They are console output.
- Building the payoff table is caller code that is not part of this model, and so is its "Synthetic Position" column. `Agreement.SumPayoffs` builds that column as the elementwise sum only to state the straddle lemma.
- Index labels: a reported break-even is a row index, not the table's index label.
- Floating-point rounding is not reproduced. Payoffs are exact reals, so a zero that rounding would miss in the source is found here.
- `LongStock` and `ShortStock` are elementwise, as the source's array arithmetic `(S - buy_price) * N` is with a NumPy array. The error a plain Python list would raise there is not modelled.
- `GraphBreakEvens` requires every selected name to be a column of the table. The source raises `KeyError` otherwise.
- `SyntheticBreakEven` is the corrected rule of "## Findings". With more than two zeros and no plateau it returns an empty list. The source as written reports the last index there (`SyntheticBreakEvenAsWritten`).
- `GraphBreakEvens` uses the corrected synthetic rule `SyntheticBreakEven`, not the as-written one. For a "Synthetic Position" column 0, 1, 0, 1, 0, 2 it reports nothing, where the source marks index 5.
- `CallNamesRouting` and `PutNamesRouting` are about assumed column names ("Long Call", "Short Put", ...). The code tests only the substrings "Call" and "Put". The comments at option_payoffs.py:72 and :78 name these four columns, and the caller that builds the table chooses the actual names.

## Findings

| source | as written | input that shows it | evidently intended | confidence | as-written member | corrected member |
|---|---|---|---|---|---|---|
| option_payoffs.py:100 | `shift(-1).replace(np.nan)` passes no replacement value, so pandas forward-fills ("pad") the missing successor of the last payoff with that payoff itself. The last entry then always compares equal, and with more than two zeros and no equal neighbours the last spot is reported as a break-even | synthetic payoff 0, 1, 0, 1, 0, 2: three zeros and no equal neighbours. Index 5, whose payoff is 2, is reported | the last entry has no successor and never matches, so nothing is reported | medium: this is pandas behaviour up to the 2.x releases (its deprecation warning is silenced at line 6); not executed | `BreakEven.SyntheticBreakEvenAsWritten`, `BreakEven.AsWrittenReportsNonZeroLastSpot` | `BreakEven.SyntheticBreakEven` |
