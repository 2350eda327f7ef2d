# crypotracker core, modelled in Dafny

crypotracker is a Next.js dashboard for a handful of crypto-currencies. Most of
it is React views and `fetch` calls to the CoinGecko market-data API. This
project models the pure computations underneath:

- **Investment simulator** (`components/InvestmentSimulator.tsx`).
  `getTimeMultiplier` turns a timeframe such as "3 days" into a number of
  months. `calculateSimulation` turns the amount, that multiplier and the risk
  tolerance into three things: a projected value with a best and a worst case,
  their returns on the amount, and a risk level with its advice text.
- **Crypto service** (`services/cryptoService.ts`).
  - The coin-id normalisation through `COIN_ID_MAP` used before a detail request.
  - The query string of the chart request, where `&interval=` appears only
    for a truthy interval.
  - `calculateVolatility`: the population standard deviation of the
    fractional returns of a `[timestamp, price]` series.
- **String helpers** (`lib/utils.ts`): `truncateString` and
  `capitalizeFirstLetter`.

The JavaScript built-ins these rely on are modelled in their own modules:
`Ascii` covers `toUpperCase`/`toLowerCase` on ASCII, and `JsString` covers
`slice`, `charAt`, `split` on one character, and `parseInt` with no radix.
Numbers are exact reals or integers, and a NaN or an infinity is `None` of
`Wrappers.Option`. `Math.sqrt` cannot be computed on reals. The model
therefore describes the volatility by its square (`SquaredVolatility`) and
by the predicate `IsVolatility`, which says that v is non-negative and that
v·v is that square. The lemma `VolatilityUnique` shows this predicate fixes
v.

Files: `wrappers.dfy`, `real_facts.dfy`, `ascii.dfy`, `js_string.dfy`,
`utils.dfy`, `crypto_service.dfy`, `investment_simulator.dfy`.

Two behaviours of the code a reader may not expect:

- A constant series of zeros divides 0 by 0, so its volatility is NaN, not 0
  (`CryptoService.ZeroSeriesVolatility`). Only a constant non-zero series has
  volatility 0.
- "years" is not in the unit switch, so "2 years" counts as one month
  (`InvestmentSimulator.YearsFallsToDefault`). The form never offers that value.

## Model

| member | source | states |
|---|---|---|
| Ascii.UpperChar | lib/utils.ts:50 | A lower-case ASCII letter becomes the capital whose lower case is the original. Every other character is unchanged. The result is never a lower-case letter. |
| Ascii.LowerChar | services/cryptoService.ts:65 | A capital becomes the lower-case letter 32 code points above it. Every other character is unchanged. The result is never a capital. |
| Ascii.ToUpper | lib/utils.ts:50 | Same length, every character mapped by `UpperChar`, and no lower-case letter left. |
| Ascii.ToLower | services/cryptoService.ts:65 | Same length, every character mapped by `LowerChar`, and no capital left. |
| Ascii.ToLowerOfLower | services/cryptoService.ts:65 | Text without capitals is left unchanged. |
| Ascii.ToLowerIdempotent | services/cryptoService.ts:65 | Lower-casing twice equals lower-casing once. |
| JsString.TruncateToInteger | lib/utils.ts:27 | The integer lies between x and 0 and is less than 1 away from x (truncation toward zero). |
| JsString.Slice | lib/utils.ts:27 | A slice is never longer than the string. |
| JsString.SlicePrefix | lib/utils.ts:27 | `slice(0, end)` gives the first `end` characters. An end past the length gives the whole string. A negative end counts back from the end, clamped at 0. |
| JsString.SliceTail | lib/utils.ts:50 | `slice(1)` is everything after the first character, and "" for "". |
| JsString.CharAt | lib/utils.ts:50 | The result has one character exactly when the index is in range, and that character is the one at the index. Otherwise the result is "". |
| JsString.Split | components/InvestmentSimulator.tsx:66 | `split(' ')` always gives at least one piece; `SplitCount`, `JoinSplit` and `SplitJoin` below pin the pieces down. |
| JsString.Join | components/InvestmentSimulator.tsx:66 | The inverse of `split` used by `JoinSplit`: the first piece is a prefix of the join, which is at least one character long per separator. |
| JsString.SplitCount | components/InvestmentSimulator.tsx:66 | There is one more piece than there are separators. |
| JsString.SplitPiecesFree | components/InvestmentSimulator.tsx:66 | No piece contains the separator. |
| JsString.JoinSplit | components/InvestmentSimulator.tsx:66 | Joining the pieces with the separator gives back the original string. |
| JsString.SplitJoin | components/InvestmentSimulator.tsx:66 | Splitting a join of separator-free pieces gives back the pieces. |
| JsString.SplitPieceThenSep | components/InvestmentSimulator.tsx:66 | A separator-free prefix followed by the separator is the first piece, and the rest is split on its own. |
| JsString.SplitNoSep | components/InvestmentSimulator.tsx:66 | A string without the separator is a single piece. |
| JsString.TrimStart | components/InvestmentSimulator.tsx:67 | The text `parseInt` reads is a suffix of its argument that does not start with white space. |
| JsString.TrimStartRemovesBlanks | components/InvestmentSimulator.tsx:67 | Everything skipped before that suffix is white space or a line terminator. |
| JsString.TakeDigits | components/InvestmentSimulator.tsx:67 | The digits read are a prefix made only of digits of the radix, and the next character (if any) is not such a digit. |
| JsString.DecimalString | components/InvestmentSimulator.tsx:170-180 | The numeral of a count is non-empty, contains only decimal digits, and has no leading zero from 10 up. |
| JsString.DecimalStringValue | components/InvestmentSimulator.tsx:67 | Reading a decimal numeral back gives its number. |
| JsString.ParseMagnitude | components/InvestmentSimulator.tsx:67 | The unsigned part reads a number only when it starts with a decimal digit (a `0x` prefix starts with 0); otherwise it is NaN. |
| JsString.ParseSigned | components/InvestmentSimulator.tsx:67 | A number is read only from text starting with a sign or a digit, and a negative number only after a leading minus sign. |
| JsString.ParseInt | components/InvestmentSimulator.tsx:67 | Blank text (the empty text included) gives NaN, and a negative result needs a minus sign in the text. |
| JsString.ParseIntDecimal | components/InvestmentSimulator.tsx:67 | `parseInt` returns n for the numeral of n. This still holds when a tail that is neither a digit nor an `x` follows the numeral. |
| JsString.ParseIntNegativeDecimal | components/InvestmentSimulator.tsx:67 | A leading minus sign gives −n. |
| JsString.ParseIntNoDigits | components/InvestmentSimulator.tsx:67 | Text that starts with neither white space, a sign nor a digit (the empty text included) gives NaN. |
| Utils.TruncateString | lib/utils.ts:23-28 | Text no longer than `num` comes back unchanged. For 0 ≤ num < length, the result is the first ⌊num⌋ characters plus "..." (length ⌊num⌋ + 3). For −1 < num < 0 it is just "...". For num ≤ −1, characters are dropped from the end and "..." is added. |
| Utils.TruncateIdempotent | lib/utils.ts:23-28 | For num ≥ 0, truncating an already truncated string changes nothing. |
| Utils.TruncateCanLengthen | lib/utils.ts:23-28 | When the length minus 3 < num < the length, the "truncated" result is longer than the input. |
| Utils.TruncateNegativeNotIdempotent | lib/utils.ts:23-28 | With num = −1, truncating "ab" gives "a...", and truncating "a..." again gives "a.....", so a negative num is not idempotent. |
| Utils.CapitalizeFirstLetter | lib/utils.ts:49-51 | The length is kept and "" stays "". The first character is upper-cased and the rest is unchanged. A string that starts with a letter then starts with a capital. A string whose first character is not a lower-case letter comes back unchanged. |
| Utils.CapitalizeIdempotent | lib/utils.ts:49-51 | Capitalising twice equals capitalising once. |
| CryptoService.MapCoinId | services/cryptoService.ts:65 | The id is either a value of the map or the input unchanged (its letter case kept). It differs from the input only when the lower-cased input is a key. |
| CryptoService.MapCoinIdKnownSymbols | services/cryptoService.ts:34-39 | btc, eth, sol and ada, in any letter case, become bitcoin, ethereum, solana and cardano. Any other id is kept. |
| CryptoService.MapCoinIdCaseInsensitive | services/cryptoService.ts:65 | Two ids that differ only in letter case and name a known symbol map to the same coin. |
| CryptoService.MapCoinIdIdempotent | services/cryptoService.ts:34-39 | Mapping an already mapped id changes nothing. |
| CryptoService.GetProperty | services/cryptoService.ts:65 | A property read yields a string exactly for the map's own keys. It is undefined exactly for names that are neither own keys nor members of Object.prototype. |
| CryptoService.Truthy | services/cryptoService.ts:65 | JavaScript truthiness of a property read; `FalsyOnlyWhenAbsent` states what it decides for the map. |
| CryptoService.FalsyOnlyWhenAbsent | services/cryptoService.ts:65 | A read of the map is falsy exactly when it finds nothing, so the `|| coinId` fallback fires only for names that are neither keys nor inherited members. |
| CryptoService.ToJsString | services/cryptoService.ts:66-67 | How the template literal writes the read value into the URL; its two non-trivial cases are stated by `ConstructorKeyAsWritten` (the Object function becomes "function Object() { [native code] }") and `ProtoKeyAsWritten` (Object.prototype becomes "[object Object]"). |
| CryptoService.MappedIdAsWritten | services/cryptoService.ts:65 | For the map's own keys, the lookup as written gives the mapped coin. |
| CryptoService.ConstructorKeyAsWritten | services/cryptoService.ts:65 | As written, "constructor" becomes the source text of the Object function. The corrected lookup keeps it. |
| CryptoService.ProtoKeyAsWritten | services/cryptoService.ts:65 | As written, "__proto__" becomes "[object Object]". The corrected lookup keeps it. |
| CryptoService.AsWrittenAgreesOtherwise | services/cryptoService.ts:65 | For every other id, the lookup as written and the corrected lookup agree. |
| CryptoService.DetailUrlInjective | services/cryptoService.ts:66-67 | Two detail URLs are equal exactly when their ids are. |
| CryptoService.CoinDetailUrl | services/cryptoService.ts:65-67 | The URL `getDetailedCoinData` requests, with the id computed as the code computes it; `CoinDetailUrlInjective` and `ConstructorDetailUrl` state its properties. |
| CryptoService.CoinDetailUrlInjective | services/cryptoService.ts:65-67 | Two ids request the same detail URL exactly when the code maps them to the same API id. |
| CryptoService.CorrectedCoinDetailUrl | services/cryptoService.ts:65-67 | The detail URL built with the corrected, own-key lookup `MapCoinId` (not the URL as written); `CorrectedCoinDetailUrlInjective` states its property. |
| CryptoService.CorrectedCoinDetailUrlInjective | services/cryptoService.ts:65-67 | With the corrected lookup, two ids request the same detail URL exactly when they normalise to the same API id. |
| CryptoService.CoinDetailUrlCorrectedOtherwise | services/cryptoService.ts:65-67 | The requested URL and the corrected one agree for every id that does not lower-case to "constructor" or "__proto__". |
| CryptoService.ConstructorDetailUrl | services/cryptoService.ts:65-67 | As written, "constructor" requests the details of a coin named after the text of the Object function; the corrected URL asks for "constructor". |
| CryptoService.ChartUrl | services/cryptoService.ts:122-123 | The chart URL is the fixed prefix, the coin id and the days, followed by `&interval=` and the interval exactly when the interval is truthy (present and non-empty). |
| CryptoService.DefaultChartUrl | services/cryptoService.ts:117-123 | A call without days requests the chart URL for days "1", which reads back as days "1" with the interval kept exactly when it is truthy. |
| CryptoService.ChartUrlRoundTrip | services/cryptoService.ts:122-123 | The chart URL reads back to its days and interval. `&interval=` is present exactly when the interval is truthy; an empty interval reads back as none. |
| CryptoService.Returns | services/cryptoService.ts:101-103 | n points give n − 1 returns. |
| CryptoService.Sum | services/cryptoService.ts:105 | The sum of the returns; `SumAppend` ties it to the left-to-right `reduce`. |
| CryptoService.SumAppend | services/cryptoService.ts:105 | Adding one more value at the end adds it to the sum, which is how `reduce((a, b) => a + b, 0)` proceeds. |
| CryptoService.Mean | services/cryptoService.ts:105 | The mean times the number of returns is their sum. |
| CryptoService.DeviationsNonNegative | services/cryptoService.ts:106 | A sum of squared deviations is never negative. |
| CryptoService.Variance | services/cryptoService.ts:105-106 | The population variance is never negative. |
| CryptoService.SquaredVolatility | services/cryptoService.ts:98-108 | Fewer than two points give 0. The result is NaN exactly when some divisor price is 0. Otherwise it is non-negative. |
| CryptoService.SquareRootUnique | services/cryptoService.ts:107 | Two non-negative reals with equal squares are equal. |
| CryptoService.IsVolatility | services/cryptoService.ts:98-108 | v is what `calculateVolatility` returns: v ≥ 0 and v·v is `SquaredVolatility`. `VolatilityUnique` shows at most one v qualifies; `ShortSeriesVolatility` and `ConstantSeriesVolatility` give its value. |
| CryptoService.VolatilityUnique | services/cryptoService.ts:107 | At most one value is the volatility of a series. |
| CryptoService.ShortSeriesVolatility | services/cryptoService.ts:99 | With fewer than two points, v is the volatility exactly when v = 0. |
| CryptoService.PopulationVariance | services/cryptoService.ts:105-106 | The variance divides by the number of returns, n − 1. |
| CryptoService.VolatilityIgnoresTimestamps | services/cryptoService.ts:101-103 | Only the price column is read. Series with equal prices have equal volatility, whatever their timestamps. |
| CryptoService.ReturnsScaleInvariant | services/cryptoService.ts:101-103 | Multiplying every price by the same non-zero factor leaves the returns unchanged. |
| CryptoService.VolatilityScaleInvariant | services/cryptoService.ts:98-108 | Multiplying every price by a non-zero factor leaves the volatility unchanged, NaN included. |
| CryptoService.ConstantSeriesVolatility | services/cryptoService.ts:98-108 | A constant non-zero series has only zero returns and volatility exactly 0. |
| CryptoService.ZeroSeriesVolatility | services/cryptoService.ts:102 | A constant series of zeros gives NaN. |
| InvestmentSimulator.MonthsFor | components/InvestmentSimulator.tsx:68-82 | Hours are converted at 720 per month, days at 30, months unchanged, and a year is 12 months. A NaN count under a known unit gives NaN. Any other unit, or none, gives 1. |
| InvestmentSimulator.TimeMultiplier | components/InvestmentSimulator.tsx:65-83 | `getTimeMultiplier`: split on a space, `parseInt` the first piece, switch on the second. Its value is fixed by `TimeMultiplierOfDecimal` (a decimal count and a unit), `NoSpaceDefaults` (no unit gives 1) and `NotANumberCount` (an unreadable count under a known unit gives NaN). |
| InvestmentSimulator.NoSpaceDefaults | components/InvestmentSimulator.tsx:66-81 | A timeframe without a space has no unit, so its multiplier is 1. |
| InvestmentSimulator.TimeMultiplierOfDecimal | components/InvestmentSimulator.tsx:65-83 | A decimal count, then a tail `parseInt` stops at, a space and a unit give that count in that unit. |
| InvestmentSimulator.TimeMultiplierOfCount | components/InvestmentSimulator.tsx:65-83 | "count unit" gives that count in that unit. |
| InvestmentSimulator.YearsFallsToDefault | components/InvestmentSimulator.tsx:78-81 | Any number of "years" counts as one month. |
| InvestmentSimulator.NotANumberCount | components/InvestmentSimulator.tsx:67-79 | An unreadable count with a known unit gives NaN. |
| InvestmentSimulator.HourOptions | components/InvestmentSimulator.tsx:170-172 | "1 hour", "6 hours" and "12 hours" give 1/720, 6/720 and 12/720. |
| InvestmentSimulator.DayOptions | components/InvestmentSimulator.tsx:173-174 | "1 day" and "3 days" give 1/30 and 3/30. |
| InvestmentSimulator.WeekOptions | components/InvestmentSimulator.tsx:175-176 | "7 days" and "14 days" give 7/30 and 14/30. |
| InvestmentSimulator.MonthOptions | components/InvestmentSimulator.tsx:177-179 | "1 month", "3 months" and "6 months" give 1, 3 and 6; "month" and "months" are units of the switch, so the 1 of "1 month" comes from the month case and not from the default. |
| InvestmentSimulator.YearOption | components/InvestmentSimulator.tsx:180 | "1 year" gives 12. |
| InvestmentSimulator.RiskLevel | components/InvestmentSimulator.tsx:50 | "Conservative" exactly below 33, "Moderate" exactly from 33 to below 66, and "Aggressive" exactly from 66 up. |
| InvestmentSimulator.RiskLevelMonotone | components/InvestmentSimulator.tsx:50 | A higher tolerance never gives a more cautious level. |
| InvestmentSimulator.SafetyRecommendation | components/InvestmentSimulator.tsx:61 | The advice text around the lower-cased level; `SafetyRecommendationCaseInsensitive` and the three advice lemmas below state its properties. |
| InvestmentSimulator.SafetyRecommendationCaseInsensitive | components/InvestmentSimulator.tsx:61 | Two levels get the same advice exactly when they agree up to letter case. |
| InvestmentSimulator.ConservativeAdvice | components/InvestmentSimulator.tsx:61 | The advice names "conservative" in lower case. |
| InvestmentSimulator.ModerateAdvice | components/InvestmentSimulator.tsx:61 | The advice names "moderate" in lower case. |
| InvestmentSimulator.AggressiveAdvice | components/InvestmentSimulator.tsx:61 | The advice names "aggressive" in lower case. |
| InvestmentSimulator.RelativeTo | components/InvestmentSimulator.tsx:56-58 | A scenario return is NaN exactly when the amount is 0. Otherwise amount + amount·return equals the scenario value. |
| InvestmentSimulator.Project | components/InvestmentSimulator.tsx:37-58 | Both scenario returns are NaN exactly when the amount is 0. |
| InvestmentSimulator.CalculateSimulation | components/InvestmentSimulator.tsx:33-63 | The numbers are NaN exactly when the time multiplier is NaN. The risk level and advice come from the tolerance alone, and the market-timing text is fixed. |
| InvestmentSimulator.ScenarioSymmetry | components/InvestmentSimulator.tsx:46-47 | Best case + worst case = 2 × projected value. |
| InvestmentSimulator.ScenarioOrdering | components/InvestmentSimulator.tsx:46-47 | With tolerance ≥ 0 and a non-negative projected value, worst ≤ projected ≤ best. The inequalities are strict when both are positive. |
| InvestmentSimulator.SimulationScenarios | components/InvestmentSimulator.tsx:33-63 | In every simulation with a projection, best + worst = 2 × projected; with tolerance ≥ 0 and a non-negative projected value, worst ≤ projected ≤ best. |
| InvestmentSimulator.ProjectedValueAtLeastAmount | components/InvestmentSimulator.tsx:41-43 | A non-negative amount, multiplier and tolerance never project less than the amount. |
| InvestmentSimulator.ZeroRiskCollapse | components/InvestmentSimulator.tsx:37-47 | With tolerance 0, best = worst = projected, and the projected return is 10% per month. |
| InvestmentSimulator.PotentialReturnIsRoi | components/InvestmentSimulator.tsx:42-54 | Projected value = amount + amount × potential return, and the potential return does not depend on the amount. |
| InvestmentSimulator.ScenarioReturns | components/InvestmentSimulator.tsx:56-58 | For a non-zero amount, both returns exist and turn the amount into the best and worst cases. |
| InvestmentSimulator.DefaultSimulation | components/InvestmentSimulator.tsx:87-91 | The form's initial inputs (200, "1 month", tolerance 50) project 230, best 287.5, worst 172.5, returns 0.15, 0.4375 and −0.1375, level "Moderate" and the moderate advice. |
| InvestmentSimulator.SimulationIgnoresAssetAndCadence | components/InvestmentSimulator.tsx:33-34 | The chosen crypto and the investment type do not change the result. |

## Left out

- The `fetch` wrappers are not modelled: `getCryptoData`, `getDetailedCoinData`, `getHistoricalData` and `getChartData` send requests and handle errors and logging, which is network I/O. Two of the URLs they build are modelled: the detail URL of `getDetailedCoinData` (services/cryptoService.ts:65-67), as written and with the corrected lookup, and the chart URL of `getChartData` (:122-123). The markets URL of `getCryptoData` (:43-52) and the history URL of `getHistoricalData` (:87) are not modelled.
- The pages and views are not modelled: app/page.tsx, app/coin/[id]/page.tsx, app/layout.tsx, components/EnhancedTradingChart.tsx, components/AppIntegrations.tsx, and the rendering part of components/InvestmentSimulator.tsx. They are UI composition and React state. The simulator form's `parseFloat` of the amount is not modelled either: the amount is a real parameter.
- The download scripts (scripts/download-images.mjs, download-exchange-logos.js) and next.config.js are not modelled: they are file and network I/O and framework configuration.
- Other helpers in lib/utils.ts are not modelled: `cn`, `formatCurrency`, `formatPercentage`, `debounce` and `getRandomColor`. They are class-name merging, `Intl` formatting, timers and randomness.
- IEEE-754 double rounding is not modelled: all arithmetic is exact. Overflow to ±Infinity is not modelled either: `parseInt` of a numeral above about 1.8e308 gives `Some(n)` here, and a huge amount in `calculateSimulation` stays finite. `None` stands for NaN or an infinity only where a division by zero or an unreadable number produces one.
- CryptoService.SquaredVolatility: models the square of the result, because `Math.sqrt` has no real-number counterpart here. `IsVolatility` pins the value down through `VolatilityUnique` without computing it.
- Utils.TruncateString: `num` is a finite real. NaN or infinite `num` is not modelled.
- InvestmentSimulator.CalculateSimulation: the amount and the tolerance are finite reals. A NaN amount (an empty amount field) is not modelled.
- Ascii.ToUpper, Ascii.ToLower: only A–Z and a–z change case. Unicode case mapping (for example "ß" to "SS") is not modelled.
- Strings are sequences of characters, not of UTF-16 code units, so surrogate pairs are not modelled.
- CryptoService.ToJsString: the text of a native function is engine-specific. The form modelled is the common "function Object() { [native code] }".
- CryptoService.ChartUrlRoundTrip: the days must not contain `&`, which would make the URL ambiguous.

## Findings

| source | as written | input that shows it | evidently intended | confidence | as-written member | corrected member |
|---|---|---|---|---|---|---|
| services/cryptoService.ts:65 | `COIN_ID_MAP` is indexed as a plain object, so the read also finds members inherited from Object.prototype | coin id "constructor" requests `/coins/function Object() { [native code] }?...`; "__proto__" requests `/coins/[object Object]?...` | only the four own keys are mapped; every other id is kept as given | not executed | CryptoService.ConstructorKeyAsWritten | CryptoService.MapCoinId |
