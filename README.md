# Fair market value of NationStates trading cards

Two userscripts replace the price chart on a NationStates card page:

- FMV.user.js draws the trade prices and a flat *fair market value* (FMV) line.
- Predict_this.user.js draws a *rolling* FMV series beside the prices.

Both scripts read the card's trades and drop gift trades, which have no price. They cut the list at a user-set trade limit and reverse it for display. Both use the same estimator on windows of 15 prices:

1. Compute the mean μ and the population standard deviation σ of the window.
2. Keep the prices p with |p − μ| ≤ k·σ.
3. Return the mean of the kept prices, or μ when nothing is kept or that mean is 0 (`|| mean`).

The single-value form applies the rule to the last 15 trades of the list. The rolling form applies it, for every index i, to the trade at i and the up to 14 trades after it. It pushes each result, then reverses the array.

This project models that core in Dafny:

| module | what it models |
|---|---|
| `Slices` | `slice(0, end)` (a negative end counts from the back), `slice(-15)` and `reverse()`. |
| `Text` | `trim()` and its white space. |
| `Estimator` | The shared window rule. |
| `Trades` | `processTrades` and the trade-limit cut. |
| `Url` | `getCardInfo` and its two regular expressions. |
| `Settings` | `parseInt`, the fallbacks to 1000 and 2, the saved input-box text and the "Set Trades to Show" menu rule. |
| `Fmv` | `calculateFairMarketValue` and the chart data of FMV.user.js. |
| `Rolling` | `calculateRollingFMV`, as a loop over an array reversed in place, and the chart data of Predict_this.user.js. |

How the model represents the scripts:

- **Prices** are exact `real`s.
- **The filter** has no square root. `Keep(p, μ, k, v)` is written as follows, where v = σ²:
  - for k ≥ 0, it is (p − μ)² ≤ k²·v;
  - for k < 0, it is p = μ ∧ v = 0.
  - `Estimator.KeepIsDeviationTest` proves this equals |p − μ| ≤ k·σ for every k. So no threshold is excluded, and the negative thresholds FMV.user.js accepts are modelled too.
- **`processTrades` and `getCardInfo`** are the same in both scripts, so one member models each.
- **`parseFloat`, `toLocaleDateString` and the conversion of the page to records** are parameters: `parse`, `dateLabel`, and a list of (price text, timestamp) records.
- **The page address** is the `url` argument.

The comment at Predict_this.user.js:77 says no reversal is needed, but the code reverses the array. The model follows the code.

Even with σ > 0 the filter can keep nothing when k < 1:

- `Estimator.KeptCanBeEmpty` shows the window [0, 2] with k = 0.5. Nothing is kept and the fallback returns μ = 1.
- `Estimator.KeptNonEmpty` proves that some price is always kept once k ≥ 1.

`Fmv.ChartLineFromLeftEnd` shows which trades the FMV line of FMV.user.js uses. The line is computed from the last 15 of the shown trades, and after the reversal these are the first 15 plotted prices.

## Model

| member | source | states |
|---|---|---|
| Slices.SliceTo | FMV.user.js:152 | `slice(0, end)`: the result is a prefix. For end ≥ 0 it has min(end, n) elements. For end < 0 it has max(0, n + end) elements. |
| Slices.LastN | FMV.user.js:72 | `slice(-15)`: the last min(15, n) elements. |
| Slices.Reverse | FMV.user.js:154-155 | `reverse()`: same length, and position i holds the element at n−1−i. |
| Slices.ReverseInvolution | FMV.user.js:154-155 | Reversing twice gives the list back, so the plotted order determines the trade order. |
| Slices.ReverseSlice | Predict_this.user.js:99 | A slice of the reversed list is the reversal of the mirrored slice. |
| Slices.SliceToIdempotent | FMV.user.js:162 | For a limit ≥ 0, `croppedTradeData` equals `tradeData`. |
| Slices.SliceToNegativeTwice | FMV.user.js:152-162 | For every negative limit that leaves something, re-slicing changes the list, so `croppedTradeData` would differ from `tradeData`. It is never used. |
| Text.TrimStart | FMV.user.js:289 | The result is a suffix, it does not start with white space, and everything removed is white space. |
| Text.TrimEnd | FMV.user.js:289 | The mirror image of `TrimStart`, at the end of the text. |
| Text.Trim | FMV.user.js:289-291 | The trimmed text is the text after the leading white space with only trailing white space cut off, so it keeps everything in between. It neither starts nor ends with white space, and it is empty exactly when the text is all white space, i.e. a gift. |
| Estimator.Keep | FMV.user.js:85 | The filter test. The mean itself always passes (for k ≥ 0, or with no spread). With k ≤ 0 only the mean passes. |
| Estimator.KeepIsDeviationTest | FMV.user.js:80-85 | For σ ≥ 0 with σ² = variance, `Keep` holds exactly when abs(p − μ) ≤ k·σ, for every k. |
| Estimator.KeepZeroThreshold | FMV.user.js:85 | With k = 0, a price passes exactly when it equals the mean. |
| Estimator.Kept | FMV.user.js:85 | `filter`: every kept price is a window price that passes. Every passing price is kept, as many times as it occurs in the window. |
| Estimator.KeptZeroThreshold | FMV.user.js:85 | With k = 0, the kept values are exactly the window's values equal to the mean. |
| Estimator.Variance | FMV.user.js:80-82 | The variance (σ²) is ≥ 0. |
| Estimator.VarianceScaled | FMV.user.js:80-82 | n·σ² is the sum of squared deviations from the mean. |
| Estimator.Mean | FMV.user.js:79 | n·μ is the sum of the prices. |
| Estimator.MeanBounds | FMV.user.js:79 | The mean lies between any bounds of the prices. |
| Estimator.DeviationsBelowTotal | FMV.user.js:80-82 | No squared deviation exceeds n·σ². |
| Estimator.WindowFmv | FMV.user.js:79-88 | The shared window rule, fallback included. Its value lies between the window's minimum and maximum. |
| Estimator.KeptMeanInRange | FMV.user.js:85-88 | The mean of the kept prices lies between the window's minimum and maximum. |
| Estimator.WindowFmvBounds | FMV.user.js:79-88 | The window FMV lies between any bounds of the window's prices, fallback included. |
| Estimator.MeanVarianceConstant | FMV.user.js:79-82 | For equal prices c, μ = c and σ² = 0. |
| Estimator.WindowFmvConstant | FMV.user.js:79-88 | For equal prices c, every price is kept and the FMV is c, for any k. For c = 0 the result goes through the fallback. |
| Estimator.WindowFmvSingle | Predict_this.user.js:59-73 | A one-price window has that price as its FMV. |
| Estimator.WindowFmvUnfiltered | FMV.user.js:85-88 | For k ≥ 0, if every squared deviation is ≤ k²σ², nothing is filtered and the FMV is μ. |
| Estimator.WindowFmvWithinDeviation | FMV.user.js:85-88 | If every abs(p − μ) ≤ k·σ, the FMV is μ. |
| Estimator.WindowFmvLargeThreshold | FMV.user.js:85-88 | For k ≥ 0 with k² ≥ n, nothing is filtered and the FMV is μ. |
| Estimator.WindowFmvNegativeThreshold | FMV.user.js:85-88 | Every negative threshold gives the plain mean μ: with σ > 0 nothing passes and the fallback applies, and with σ = 0 every kept price is μ. |
| Estimator.KeptNonEmpty | FMV.user.js:85-88 | For k ≥ 1, some price is always kept. |
| Estimator.KeptCanBeEmpty | FMV.user.js:85-88 | Example: for k = 0.5, the window [0, 2] keeps nothing and the result is the fallback μ = 1. |
| Estimator.OutlierKept | FMV.user.js:79-88 | Example: in [10, 10, 10, 100] with k = 2, σ is inflated by 100 itself, so 100 is kept and the FMV is 32.5. |
| Trades.ToRecord | FMV.user.js:288-293 | The price is null exactly for a gift, and otherwise the parsed trimmed text. The timestamp is seconds times 1000. |
| Trades.ToRecords | FMV.user.js:287-294 | The `map` step: one record per TRADE element, in order. |
| Trades.KeepPriced | FMV.user.js:295 | The `filter` step never makes the list longer. |
| Trades.ProcessTrades | FMV.user.js:285-296 | The result is no longer than the number of TRADE elements. |
| Trades.ProcessTradesSelects | FMV.user.js:285-296 | The result is exactly the non-gift trades, converted, in their original order. |
| Trades.ProcessTradesKeepsAll | FMV.user.js:291-295 | Nothing is dropped exactly when there is no gift. |
| Trades.ChartTrades | FMV.user.js:152 | The shown trades are a prefix of the processed ones, of length min(limit, n) for a limit ≥ 0, or max(0, n + limit) otherwise. |
| Url.DigitRun | FMV.user.js:49 | `\d+` is greedy: the run is all digits and cannot be extended. |
| Url.FirstMatch | FMV.user.js:49 | The leftmost position where the key is followed by a digit, or none. |
| Url.Capture | FMV.user.js:49-50 | `match(...)[1]`: null exactly when nothing matches; otherwise the non-empty digit group at the leftmost match. |
| Url.GetCardInfo | FMV.user.js:44-68 | The card id is the `card=` group or null. The season is the `season=` group when there is one, otherwise "3". It is always non-empty digits. |
| Url.SeasonDefault | FMV.user.js:53-57 | Every address in which "season=" does not occur gets season "3". |
| Url.CardInfoExample | FMV.user.js:49-57 | Example: "deck/card=7" gives card id "7" and season "3". |
| Settings.ParseInt | Predict_this.user.js:187 | `parseInt`: after leading white space, text that starts with neither a sign nor a digit is `NaN`. Only a leading minus gives a negative number. |
| Settings.ParseIntText | FMV.user.js:117 | A stored integer reads back as itself: `parseInt(String(n)) == n`. |
| Settings.ParseIntNull | FMV.user.js:259 | `parseInt(null)` reads the text "null" and is `NaN`. |
| Settings.ParseIntDecimalPrefix | Predict_this.user.js:187 | Text that starts with decimal digits, and not with `0x`/`0X`, reads as the value of its longest digit prefix. |
| Settings.ParseIntTrailingText | Predict_this.user.js:187 | Example: `parseInt` ignores text after the digits ("25 trades" gives 25). |
| Settings.ParseIntHex | Predict_this.user.js:187 | Example: `parseInt` reads a `0x` prefix as hexadecimal ("0x10" gives 16). |
| Settings.ParseIntNegative | FMV.user.js:116 | Example: "-5" gives −5. |
| Settings.ParseIntZero | FMV.user.js:116 | Example: "0" gives 0. |
| Settings.ParseIntNotANumber | Predict_this.user.js:187 | Text that starts with a non-digit (no sign, no white space) is `NaN`. |
| Settings.IntOr | FMV.user.js:116 | JavaScript's logical or on a number: x, or d when x is `NaN` or 0; never 0 when d is not 0. |
| Settings.StoredText | FMV.user.js:259 | The text `parseInt` reads from the store: the stored text, or "null" for a missing entry, which reads as `NaN`. |
| Settings.TradeLimitOf | FMV.user.js:116 | `parseInt(text)` with the fallback 1000: the parsed number when it is neither `NaN` nor 0. It is never 0, and it is 1000 exactly when the text parses to `NaN`, 0 or 1000. |
| Settings.TradeLimitNegative | FMV.user.js:116 | Example: the input box accepts "-5" as the limit −5. |
| Settings.TradeLimitDefault | Predict_this.user.js:184 | Example: stored texts "0" and "abc" give the limit 1000. |
| Settings.LoadTradeLimit | FMV.user.js:259 | With nothing stored, the start-up limit is 1000. |
| Settings.TradeLimitPersists | FMV.user.js:116-117 | A limit set in the box is stored as text and read back unchanged at the next start-up. |
| Settings.SavedText | FMV.user.js:100-101 | `getItem(key)` with a fallback text: a missing or empty entry shows the fallback text. |
| Settings.InputBoxAgreesWithStartup | FMV.user.js:100 | The box's initial text reads as the limit loaded at start-up, whatever is stored. |
| Settings.ThresholdOf | FMV.user.js:136 | `parseFloat(x)` with the fallback 2: `NaN` and 0 become 2, so a threshold of 0 can never be set. |
| Settings.MenuCommand | Predict_this.user.js:184-195 | Cancelled exactly for a null answer. Accepted exactly when the answer parses to a number > 0, with that number. Otherwise rejected. |
| Settings.StoreAfter | Predict_this.user.js:186-192 | The stored limit changes only when the answer is accepted. |
| Settings.CallbackArgument | Predict_this.user.js:190 | The callback runs exactly when the answer is accepted. |
| Settings.MenuLimitPersists | Predict_this.user.js:184-190 | An accepted limit is what the next start-up reads, and it is what the callback receives. |
| Settings.MenuExamples | Predict_this.user.js:186-194 | Example: "-5", "0" and "x" are rejected, "25 trades" is accepted as 25, and a null answer is cancelled. |
| Fmv.FairMarketValue | FMV.user.js:70-89 | An empty trade list gives 0. Otherwise the value lies between the minimum and maximum of the last 15 prices. |
| Fmv.OnlyLastWindowMatters | FMV.user.js:72 | With at least 15 trades, trades before them do not change the value. |
| Fmv.FairMarketValueConstant | FMV.user.js:79-88 | A non-empty list of equal prices c gives c. |
| Fmv.FairMarketValueLargeThreshold | FMV.user.js:85-88 | For a non-empty list and k ≥ 0 with k² ≥ 15, the value is the plain mean of the last 15 prices. |
| Fmv.ChartOf | FMV.user.js:154-169 | One price and one label per shown trade, and both FMV-line points at the same height. |
| Fmv.ReplaceChart | FMV.user.js:150-169 | The chart never has more points than there are TRADE elements, nor more than a non-negative trade limit. |
| Fmv.ChartShape | FMV.user.js:152-155 | `prices` and `labels` have one entry per shown trade, in reverse trade order. |
| Fmv.ChartLine | FMV.user.js:158-169 | Both FMV-line points have the FMV of the shown trades as y. Their x values are the first and last labels, `undefined` when there is no trade. |
| Fmv.LastPricesReversed | FMV.user.js:72 | The last m prices are the first m plotted ones, read backwards. |
| Fmv.ChartLineFromLeftEnd | FMV.user.js:154-158 | The line's value is the window rule on the first (up to) 15 plotted prices. |
| Rolling.Window | Predict_this.user.js:59-62 | The window for index i starts with the trade at i. It has 1 to 15 elements and is cut short only at the end of the list. |
| Rolling.ForwardFmvs | Predict_this.user.js:57-76 | The pushed values: one per trade, each between its window's minimum and maximum; the last is the last trade's price. |
| Rolling.LastWindowSingle | Predict_this.user.js:59-73 | The window of the last trade holds that trade alone, so its value is that trade's price. |
| Rolling.RollingSpec | Predict_this.user.js:56-77 | The output has the input's length. Position j holds the FMV of the window that starts at index n−1−j, and lies between that window's minimum and maximum. |
| Rolling.ReverseInPlace | Predict_this.user.js:77 | `reverse()` leaves the array holding the reversal of its old contents. |
| Rolling.RollingFmv | Predict_this.user.js:56-78 | The loop and the in-place reversal compute exactly `RollingSpec`. |
| Rolling.RollingFirstIsLastPrice | Predict_this.user.js:59-77 | Output position 0 is the price of the last input trade. |
| Rolling.RollingBounds | Predict_this.user.js:66-73 | Bounds on all prices bound every rolling value. |
| Rolling.RollingConstant | Predict_this.user.js:66-73 | A constant price series gives a constant FMV series. |
| Rolling.RollingAligned | Predict_this.user.js:77-101 | On the chart, the value at position j comes from the plotted price at j and the up to 14 plotted prices to its left. |
| Rolling.RollingLastWindow | Predict_this.user.js:59-62 | The last value uses the first 15 trades. For at most 15 trades it equals FMV.user.js's single value. |
| Rolling.ReplaceChart | Predict_this.user.js:97-101 | The prices and labels are the shown trades reversed. The FMV series uses threshold 2 and has the same length as the displayed prices. |

## Left out

- Fetching the trades (`fetchCardData`), the XML document and `DOMParser`: the model starts from a list of (price text, timestamp) records.
- Chart.js, the canvas, the control inputs and every other DOM change: this is presentation code.
- `localStorage`, `prompt`, `alert` and `GM_registerMenuCommand` as effects: the model has them as values instead: the stored text, the answer, and the outcome.
- The `main` callbacks that reassign `tradeLimit` and `threshold`, and the overlapping fetches they start: this is asynchronous ordering.
- `console.log`, `console.warn` and `console.error` output.
- IEEE floating point: rounding in `reduce`, `Math.sqrt`, `-0` and `NaN`. Prices are exact reals, and the filter is in squared form.
- Trades.ToRecord: `parse` (`parseFloat`) always returns a number, so the `NaN` price of an unparsable non-empty text, which `processTrades` keeps, is not modelled.
- Settings.ThresholdOf: takes the result of `parseFloat` as given, so the stored threshold's text round trip is not modelled.
- `Date` and `toLocaleDateString`: the label of a timestamp is the parameter `dateLabel`, and a non-numeric TIMESTAMP text (an invalid date) is not modelled.
- Settings.ParseInt: works on unbounded integers, so the precision loss above 2^53 is not modelled, and neither is a radix argument.
- Rolling.RollingFmv: models each `push` as a write into a preallocated array of length n.
