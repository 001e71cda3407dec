# Farm list of the Farms page

A Dafny model of the farm list that the Farms page (`src/views/Farms/Farms.tsx`)
computes on every render. The React component holds the pipeline inline. Here
it is a function of the page's inputs:

- the page mode `tokenMode`;
- the route `pathname`;
- the "staked only" toggle `stackedOnly`;
- the search text `query`;
- the sort option `sortOption`;
- the prices `cakePrice`, `bnbPrice` and `apePrice`, and `BLOCKS_PER_YEAR`.

The stages are:

1. **Partition.** The farms of the page's mode are split into active farms
   (multiplier other than `"0X"`) and inactive farms (multiplier `"0X"`).
2. **Staked only.** The staked-only list is the active farms whose user data
   show a positive staked balance.
3. **Selection.** The route and the toggle choose one of the three lists.
4. **Derivation.** Every farm of the chosen list gets an APY estimate and a
   liquidity value. This uses bignumber.js decimal arithmetic:
   - `times` is exact;
   - `div` rounds to 20 decimal places, half away from zero.
5. **Search.** A case-insensitive substring search on the pair symbol.
6. **Sort.** lodash `orderBy`, a stable descending sort, on one of four
   keys. Any other option keeps the order. For "apr" the keys are BigNumber
   values, which lodash compares as decimal strings, not as numbers (see
   "## Findings").
7. **Label.** Each row is labelled with the upper-cased symbol, minus its
   first `"PANCAKE"`. An empty symbol, which `farm.lpSymbol && ...` passes
   through, gives the empty label in the model as well.

Files:

- `seqs.dfy` (`Seqs`): `Option`, `Array.prototype.filter`, and the
  subsequence relation.
- `js_strings.dfy` (`JsStrings`): the string operations the page uses.
  - `toLowerCase` and `toUpperCase`, on ASCII letters;
  - `indexOf` and `includes`;
  - `replace` with a string pattern;
  - `slice(0, -1)`;
  - `Number(...)` on signed decimal literals.
- `big_decimal.dfy` (`BigDecimal`): bignumber.js `times`, and `div` rounded
  to 20 places.
- `order_by.dfy` (`OrderBy`): lodash `orderBy(..., 'desc')` as a stable
  insertion sort. It is proved to be a permutation, ordered, stable, and the
  only ordering with those properties.
- `farms.dfy` (`Farms`): the page's pipeline.

The per-farm derivation (lines 221-253) and the view selection (lines 294-302)
reassign local variables step by step. They are the methods
`Farms.DeriveFarm` and `Farms.FarmsStaked`, each proved equal to a
specification function. The list stages are functions.

The reward per block divides T·w by 10^18 (T the rate, or 1 when it is
absent or zero; w the pool weight) and, like every `div`, rounds the
quotient to 20 decimal places. With no rate the quotient is w / 10^18, so a
weight with more than two decimal places is rounded, and a weight below
0.005 gives a reward, and an APY, of 0 (`Farms.RewardVanishes`).

For a CAKE quote, the liquidity is converted with the CAKE price (line 252),
but the pooled value the APY is divided by is not (lines 230-237). The model
follows the code; `Farms.LiquidityAgainstPooledValue` states the difference.

## Model

| member | source | states |
|---|---|---|
| Seqs.Filter | src/views/Farms/Farms.tsx:192-193 | `filter` keeps exactly the elements that pass the test, each with all its copies, and adds nothing |
| Seqs.FilterIsSubseq | src/views/Farms/Farms.tsx:192-193 | `filter` keeps the passing elements in their input order: its result is a subsequence of its input |
| Farms.PartitionByMultiplier | src/views/Farms/Farms.tsx:192-193 | of `ActiveFarms` and `InactiveFarms`: both are order-preserving subsequences of the input; a farm is active iff it is of the page's mode and its multiplier is not "0X", and inactive iff it is of the mode and its multiplier is "0X"; together they hold each farm of the mode exactly as often as the input does |
| Farms.StakedOnlySubset | src/views/Farms/Farms.tsx:197-199 | `StackedOnlyFarms` is the subsequence of the active list, and of the input, holding exactly the active farms with user data and a staked balance above 0 |
| Farms.TapsPerBlock | src/views/Farms/Farms.tsx:222 | `tapsPerBlock \|\| 1`: the rate when it is present and non-zero, and 1 when it is absent or zero |
| BigDecimal.DivSpec | src/views/Farms/Farms.tsx:224 | `Div` (`a.div(b)`) gives a value with at most 20 decimal places, within half a unit in the last place of the exact quotient, and not negative when the quotient is not |
| BigDecimal.DivExact | src/views/Farms/Farms.tsx:224 | a quotient that already fits in 20 decimal places is returned exactly |
| BigDecimal.DivTimesDivisor | src/views/Farms/Farms.tsx:240 | for a positive divisor, the rounded quotient times the divisor is the dividend, up to half a unit in the last place scaled by the divisor |
| Farms.RewardPerYearFormula | src/views/Farms/Farms.tsx:222-225 | when T·w / 10^18 (T the rate, or 1 when absent or zero; w the pool weight) is exact to 20 places, `RewardPerYear` is exactly T·w / 10^18 × BLOCKS_PER_YEAR, and so, with no rate, w / 10^18 × BLOCKS_PER_YEAR |
| Farms.RewardPerYearBound | src/views/Farms/Farms.tsx:222-225 | for every farm, `RewardPerBlock` is T·w / 10^18 up to half a unit in the 20th place (with no rate, w / 10^18 up to that half unit), and `RewardPerYear` is T·w / 10^18 × BLOCKS_PER_YEAR up to that half unit times \|BLOCKS_PER_YEAR\| |
| Farms.RewardVanishes | src/views/Farms/Farms.tsx:222-225 | for a non-negative T·w, the reward per block is 0 exactly when T·w is below 0.005, and the yearly reward is then 0 too |
| Farms.RewardRoundingExample | src/views/Farms/Farms.tsx:222-224 | with no rate and a pool weight of 0.025, the exact quotient 2.5·10^-20 becomes a reward per block of 3·10^-20 |
| Farms.TotalValueByQuote | src/views/Farms/Farms.tsx:230-237 | `TotalValue`, the pooled value, is the quote amount (0 when absent) times the BNB price for BNB, times the partner-token price for BANANA, and the amount itself for CAKE and other quotes |
| Farms.ApyAgainstPooledValue | src/views/Farms/Farms.tsx:228-241 | `Apy`: with a pooled value of 0 or less, cakePrice × yearly reward, undivided; otherwise APY × pooled value equals cakePrice × yearly reward, up to the rounding of the division |
| Farms.LiquidityAgainstPooledValue | src/views/Farms/Farms.tsx:243-253 | `Liquidity` is null exactly when the amount is absent; for BNB and other quotes it equals the pooled value; for CAKE it is the CAKE price times the pooled value; for BANANA it is the bare amount, while the pooled value is converted with the partner-token price |
| Farms.DerivedValuesNonNegative | src/views/Farms/Farms.tsx:221-253 | with non-negative prices, weights, rates and amounts, neither the APY nor the liquidity is negative |
| Farms.DeriveFarm | src/views/Farms/Farms.tsx:221-272 | the assignment chain computes `Derive`, the specified APY and liquidity, and the row carries the farm unchanged (`{ ...farm, apy, liquidity }`) |
| Farms.DeriveAll | src/views/Farms/Farms.tsx:221-273 | the map gives one row per farm, in order, each with its farm unchanged and its derived values |
| JsStrings.ToLower | src/views/Farms/Farms.tsx:276-278 | `toLowerCase` keeps the length, turns each upper-case letter into its lower-case letter (code point + 32), and keeps every other character |
| JsStrings.LowerForgetsCase | src/views/Farms/Farms.tsx:276-278 | lower-casing is idempotent and undoes upper-casing |
| JsStrings.IndexOf | src/views/Farms/Farms.tsx:278 | `indexOf` returns an index where the pattern occurs with no occurrence before it, or -1 when it occurs nowhere |
| JsStrings.Includes | src/views/Farms/Farms.tsx:278 | `includes` holds iff the pattern occurs at some index |
| Farms.QueryFilterSpec | src/views/Farms/Farms.tsx:275-285 | `QueryFilter`: an empty query keeps the rows unchanged; any other keeps, in order, exactly the rows whose lower-cased symbol contains the lower-cased query; never longer than the input |
| Farms.QueryIgnoresCase | src/views/Farms/Farms.tsx:275-278 | queries that lower-case alike, such as a query and its upper-cased form, select the same rows |
| Farms.FarmsList | src/views/Farms/Farms.tsx:219-288 | every listed row is the derived row of a farm of the input whose symbol survives the search |
| Farms.FarmsListSpec | src/views/Farms/Farms.tsx:219-288 | the list is a subsequence of the derived rows, has one row per farm for an empty query, and holds the row of every farm whose symbol matches |
| OrderBy.SortDescPermutes | src/views/Farms/Farms.tsx:204-210 | `SortDesc` (`orderBy`) returns a permutation of its input |
| OrderBy.SortDescOrdered | src/views/Farms/Farms.tsx:204-210 | `SortDesc` returns its input in non-increasing key order |
| OrderBy.SortDescStable | src/views/Farms/Farms.tsx:204-210 | the sort is stable: the elements of each key value keep their input order |
| OrderBy.OrderedAndStableIsUnique | src/views/Farms/Farms.tsx:204-210 | two non-increasing orderings that agree key by key on the order of the elements are equal |
| OrderBy.SortDescAllTies | src/views/Farms/Farms.tsx:204-210 | when all keys are equal, sorting changes nothing |
| Farms.SortFarmsSpec | src/views/Farms/Farms.tsx:201-214 | `SortFarms`: for "apr", "multiplier", "earned" and "liquidity", the result is a permutation of the rows, non-increasing in that option's numeric key, and stable on ties; any other option returns the rows unchanged |
| Farms.SortFarmsIsTheStableOrder | src/views/Farms/Farms.tsx:201-214 | any stable non-increasing ordering of the rows by the option's key is the sorted result |
| JsStrings.DropLast | src/views/Farms/Farms.tsx:206 | `slice(0, -1)` drops exactly the last character, and leaves an empty string empty |
| JsStrings.ParseNumber | src/views/Farms/Farms.tsx:206 | `Number` maps "" to 0 and a string of digits to its value; a string that starts with anything but a digit, a sign or a point gives `None` (`NaN`, or a form this model does not cover) |
| JsStrings.ParseNumberOfDecimal | src/views/Farms/Farms.tsx:206 | `Number` reads a literal `w.f` or `+w.f` as the decimal value of its digits, as in a "0.5X" multiplier |
| JsStrings.ParseNumberMinus | src/views/Farms/Farms.tsx:206 | `Number` reads "-" followed by a literal as the negated value of the literal |
| JsStrings.ParseNumberOfSignedDigits | src/views/Farms/Farms.tsx:206 | `Number` reads "+" or "-" followed by digits as the signed value of the digits |
| JsStrings.ParseNumberOfNatToString | src/views/Farms/Farms.tsx:206 | `Number` reads back every natural number written in decimal |
| Farms.MultiplierKeyOfLabel | src/views/Farms/Farms.tsx:206 | `MultiplierKey`: a multiplier label `${n}X` parses, and sorts by the number n |
| Farms.MultiplierKeyOfDecimalLabel | src/views/Farms/Farms.tsx:206 | a multiplier label `w.fX` parses, and sorts by its decimal value |
| Farms.InactiveMultiplierSortKeepsOrder | src/views/Farms/Farms.tsx:205-206 | rows whose multipliers are all "0X" are left in their order by the multiplier sort |
| Farms.LiquiditySortExample | src/views/Farms/Farms.tsx:209-210 | rows with liquidities 10, 30 and 20 sort to 30, 20, 10 |
| Farms.DisplayedFarms | src/views/Farms/Farms.tsx:294-300 | every displayed farm comes from the input and is of the page's mode |
| Farms.ViewSelection | src/views/Farms/Farms.tsx:294-300 | a route containing "history" shows the inactive list whatever the toggle; otherwise the toggle chooses the staked-only list (on) or the active list (off) |
| Farms.RouteExample | src/views/Farms/Farms.tsx:294-300 | of a "40X" farm and a "0X" farm, the active route shows only the first and the history route only the second |
| Farms.FarmsStaked | src/views/Farms/Farms.tsx:294-302 | the reassignments of `farmsStaked` produce `FarmsView`: the sorted, searched, derived rows of the list that the route and toggle choose; it needs defined liquidities and readable multipliers only of the farms it derives and sorts |
| Farms.ShownRows | src/views/Farms/Farms.tsx:294-302 | the shown rows are a permutation of the searched list; each comes from a farm of the mode, is inactive exactly on the history route, has a positive stake when the toggle is on outside that route, matches a non-empty query, and carries its derived values |
| JsStrings.ToUpper | src/views/Farms/Farms.tsx:306 | `toUpperCase` keeps the length, turns each lower-case letter into its upper-case letter (code point - 32), and keeps every other character |
| JsStrings.ReplaceFirst | src/views/Farms/Farms.tsx:306 | `replace` with a string pattern replaces only the first occurrence, and returns a string without one unchanged |
| Farms.LpLabelSpec | src/views/Farms/Farms.tsx:306 | `LpLabel` is the upper-cased symbol with its first "PANCAKE" removed (so 7 characters shorter), or the upper-cased symbol itself when it has none |
| JsStrings.StringRankFaithful | src/views/Farms/Farms.tsx:204 | `StringRank` orders strings as JavaScript's `<` (`JsLess`) does, and two strings have equal ranks only when they are equal |
| Farms.AprSortAsWrittenSpec | src/views/Farms/Farms.tsx:204 | `AprSortAsWritten`, the "apr" sort as lodash runs it on BigNumbers, keeps the rows, puts no row before one whose decimal text is a greater string, and keeps rows with equal texts in input order |
| Farms.AprSortAsWrittenMisorders | src/views/Farms/Farms.tsx:204 | for APYs 12.3 and 9.1 the as-written sort puts 9.1 first, while the numeric `SortFarms` puts 12.3 first |

## Left out

- The React component itself is not modelled: hooks, routing, styled components, the FAQ data and all JSX (src/views/Farms/Farms.tsx:31-158, 346-518). It is presentation.
- The partner-token price from `useApePrice()` (lines 176-178) is an input, because it arrives asynchronously.
- The user data loaded by `fetchFarmUserDataAsync` (lines 184-188) is an input, because it is I/O.
- APR display formatting (`toLocaleString(...).slice(0, -1)`, line 311) is not modelled. It uses floating point and locale rules.
- `getBalanceNumber` (line 328) is not modelled. It is a helper in another file.
- The table column comparators (lines 354-368) are not modelled. They compare locale-formatted strings, and their default branch returns 1, which is not a consistent comparator.
- Farms.DeriveFarm: BNB and CAKE quotes with no `lpTotalInQuoteToken` are excluded by a precondition (`LiquidityDefined`). There the code multiplies a price by `undefined` and gets `NaN`.
- Farms.SortFarmsSpec: for "multiplier", the rows must have multipliers `Number` can read (`MultiplierParses`). A malformed label gives `NaN` in the code, and `NaN` keys are not modelled.
- JsStrings.ParseNumber: only an optional sign, digits and a decimal point are modelled. Forms `Number` also reads, such as surrounding white space (`Number(" 5")` is 5), exponents, hexadecimal and `Infinity`, give `None` in the model, as `NaN` does. The value is the exact decimal, not the nearest double.
- JsStrings.ToLower: only ASCII letters change case, not the full Unicode case mapping.
- JsStrings.ToUpper: only ASCII letters change case, not the full Unicode case mapping.
- Farms.FarmsStaked: the view, and so `Farms.ShownRows`, sorts "apr" with the corrected numeric order of `SortFarms`, not the decimal-string order of line 204; `Farms.AprSortAsWritten` is the as-written order (see "## Findings").
- Farms.SortFarmsSpec: the "apr" key is compared as a number, which is the evidently intended order. lodash compares the BigNumber `apy` values through `valueOf`, as decimal strings; `Farms.AprSortAsWritten` models that order (see "## Findings").
- Farms.AprSortAsWritten: bignumber.js's decimal formatting (`valueOf`) is a parameter, not modelled.
- JsStrings.JsLess: compares code points; JavaScript compares UTF-16 code units, which differ only for characters above U+FFFF. Decimal texts are ASCII.
- Farms.SortFarmsSpec: the "earned" key is read as a number. The user-data layer is not part of this model. If it stores `earnings` as decimal strings, as the `new BigNumber(...)` wrappers at lines 198 and 328 suggest, lodash compares them as strings, like the APY values, and compares the 0 used for a farm without user data by numeric conversion.
- Farms.SortFarmsSpec: `Number(...)` in the "multiplier" and "liquidity" keys (lines 206, 210) rounds to a 64-bit double; the model keeps the exact decimal. Keys that differ only beyond about 16 significant digits tie in the code, and keep their input order there, but are ordered in the model.
- JsStrings.ReplaceFirst: copies the replacement as written. JavaScript interprets `$&`, `$$`, `` $` `` and `$'` in it; the only call (line 306) passes "", which has none.
- BigDecimal.Div: the bignumber.js configuration is assumed to be the library default (20 decimal places, `ROUND_HALF_UP`). The application's global configuration is not part of this model.
- src/views/Home/Home.tsx is not part of this model. It is static markup and a window-resize listener.

## Findings

| source | as written | input that shows it | evidently intended | confidence | as-written member | corrected member |
|---|---|---|---|---|---|---|
| src/views/Farms/Farms.tsx:204 | `orderBy(farms, 'apy', 'desc')` on BigNumber values: lodash's `>`/`<` compare their `valueOf` strings, so the order is that of the decimal texts | rows with APYs 12.3 and 9.1: "9.1" is the greater string, so 9.1 is listed first | the highest APY first (12.3 before 9.1) | medium, not executed; it depends on `apy` being a BigNumber, as `cakePrice.times(...)` (line 228) and `apy.div(...)` (line 240) make it | Farms.AprSortAsWrittenMisorders | Farms.SortFarmsSpec |
