# Bitcoin statistics plug-in: a Dafny model

The plug-in answers a free-text query with a JSON object of Bitcoin
statistics. The exported `run` works in four steps:

1. It lower-cases the query.
2. It decides which of seven categories to fetch: `market`, `latestBlock`,
   `mining`, `fees`, `mempool`, `lightning` and `nodes`.
3. It calls the adapter of each selected category. Each adapter asks
   CoinCap.IO, Mempool.Space or BitNodes.IO and normalises the answer.
4. It returns every record keyed by its keyword. If an adapter fails, it
   returns the first failure's message and exit code 1 instead.

The model has these modules:

- `Wrappers`: `Option` and `Result`.
- `Text`: `strings.Contains` and `strings.ToLower`.
- `Decimal`: `strconv.Itoa`, and a parser that inverts it.
- `Units`: `roundDec`, Go's truncating conversions and divisions, and the
  satoshi and byte conversions.
- `Apis`: every adapter, as a pure function. Its input is what the upstream
  calls returned: the HTTP status and the outcome of `json.Unmarshal`.
- `Keywords`: the keyword table and the first loop of `run`. The loop is
  compared with a direct statement of the selection, `Resolve`.
- `Aggregation`: the second loop of `run` and `run` itself.
- `Scenarios`: particular queries and responses.

Go visits a map in an unspecified order, and `run` ranges over its keyword
map twice. The model therefore takes two visiting orders. Each order is any
permutation of the table. The proofs hold for every pair of orders.

Reals stand for float64 values and are exact. Integers are unbounded.

Two consequences of the code may be unexpected, and the model follows the code in both:

- **Everything excluded.** Excluding every category might be expected to
  give an empty result. In the code, `latestBlock` is still selected. The
  query is lower-cased, so neither `latestBlock` nor `-latestBlock` can
  ever occur in it (`Keywords.LatestBlockNeverAppears`,
  `Scenarios.EverythingExcludedQuery`).
- **`latestBlock` cannot be asked for.** The word `latestblock` mentions no
  keyword, so it selects all seven categories (`Scenarios.LatestBlockQuery`).

## Model

| member | source | states |
|---|---|---|
| Text.Lower | main.go:24 | The result has the input's length, turns each upper-case ASCII letter into its lower-case letter, contains no upper-case ASCII letter, and keeps every other character in place |
| Text.Contains | main.go:29-41 | `strings.Contains`: the word occurs at some offset of the text. No contract of its own; `SpaceSeparated`, `JoinedContents` and the selection lemmas characterise its use |
| Text.SpaceSeparated | main.go:37-41 | A keyword (no spaces) found in text built by appending a space and a word cannot straddle the space, so it occurs in the word or in the rest |
| Apis.Message | apis.go:47-48 | The text of `err.Error()` for each kind of failure. No contract of its own; characterised by `StatusMessageEndsWithStatus` |
| Decimal.NatToString | apis.go:47 | The rendering is non-empty, all digits, and has no leading zero |
| Decimal.IntToString | apis.go:47 | The rendering starts with a minus sign exactly when the number is negative |
| Decimal.NatToStringRoundTrip | apis.go:47 | The digits read back as the number they render |
| Decimal.IntToStringRoundTrip | apis.go:47 | Parsing the rendered status code gives the status code back |
| Decimal.IntToStringInjective | apis.go:47 | Different status codes give different texts |
| Units.Round | apis.go:460 | The result is an integer within 0.5 of the input; on a tie it lies farther from zero; it keeps the input's sign |
| Units.RoundIsUnique | apis.go:460 | Any integer with the two rounding properties is the rounded value |
| Units.RoundDec | apis.go:458-461 | The result has at most d decimals, lies within half a unit of the d-th decimal of x, lies farther from zero than x when exactly half a unit away (ties away from zero), and keeps x's sign |
| Units.RoundDecIsUnique | apis.go:458-461 | Any value with these rounding properties is the rounded value, so they determine `roundDec` completely |
| Units.RoundDecKeepsRounded | apis.go:458-461 | A value that already has at most d decimals is returned unchanged |
| Units.RoundDecIdempotent | apis.go:458-461 | Rounding a rounded value again changes nothing |
| Units.Truncate | apis.go:83 | The float-to-integer conversion drops the fraction: the result is at most the input in absolute value, the input is less than one above it, and the sign is kept |
| Units.GoQuotient | apis.go:228 | Integer division by a positive divisor rounds towards zero, for negative dividends too |
| Units.SatsToBtc | apis.go:227 | Multiplying the bitcoin amount by 100 000 000 gives back the satoshis |
| Units.BytesToMegabytes | apis.go:226 | Multiplying the megabytes by 1 000 000 gives back the bytes |
| Units.SatsRoundTripTolerance | apis.go:227 | Bitcoin rounded to 3 decimals and converted back is within 50 000 satoshis of the original |
| Units.BytesRoundTripTolerance | apis.go:226 | Megabytes rounded to 2 decimals and converted back are within 5 000 bytes of the original |
| Apis.StatusMessageEndsWithStatus | apis.go:46-49 | A status error text starts with the provider and the fixed phrase, and the rest parses back to the status code |
| Apis.Accept | apis.go:46-55 | A status other than 200 fails naming the provider and status; otherwise a decoding failure is passed on; otherwise the decoded body is the value |
| Apis.ParseAll | apis.go:57-76 | Parsing succeeds exactly when every string parses, with the values in order; a failure carries the error of the first string that fails |
| Apis.GetMarketData | apis.go:40-87 | Status failure, then decode failure, then the first failing float parse, then a zero maximum supply and then a zero price, each as its own adapter error; on success the supply is copied, the supply share, price, 24 h change and market cap are rounded to 2 decimals, and the Moscow time is the truncation of satoshis per dollar |
| Apis.MarketDataApproximate | apis.go:78-84 | With status 200, five parsable strings, and a non-zero maximum supply and price, the adapter succeeds, and each rounded figure lies within 0.005 of the exact value |
| Apis.FromUnixMilli | apis.go:121 | The retarget instant in whole seconds is the millisecond timestamp floored to the second |
| Apis.GetDifficultyAdjustmentData | apis.go:101-124 | Success exactly on status 200 with a decoded body; the change is rounded to 2 decimals, the remaining blocks are copied, and the date is the floored second |
| Apis.GetHashrateAndDifficulty | apis.go:136-158 | Success exactly on status 200 with a decoded body; hashrate and difficulty are copied |
| Apis.GetMiningData | apis.go:168-191 | The difficulty-adjustment failure takes precedence over the hashrate failure; success exactly when both succeed, with every field taken from its half |
| Apis.BlocksToClear | apis.go:228 | For a non-negative backlog, the count is the number of full blocks the backlog fills, plus one |
| Apis.BlocksToClearMonotone | apis.go:228 | A larger backlog never needs fewer blocks |
| Apis.GetMempoolStats | apis.go:206-231 | Success exactly on status 200 with a decoded body; the count is copied, the size is in megabytes to 2 decimals, the fees are in bitcoin to 3 decimals, and the block count is derived from the size |
| Apis.MempoolStatsApproximate | apis.go:224-228 | A decoded status-200 reply always succeeds; the reported size, converted back, is within 5 000 vbytes of the upstream size, and the fees within 50 000 satoshis |
| Apis.IsTorPeer | apis.go:268 | The test `details[11] == "TOR"`. No contract of its own; characterised by `TorPeers` and `CountTorPeers` |
| Apis.TorPeers | apis.go:266-271 | A peer belongs to the set exactly when its twelfth detail is the string TOR |
| Apis.CountTorPeers | apis.go:266-273 | The loop over the peers, in any order, counts exactly the Tor peers, and never more than there are peers |
| Apis.GetBitcoinNodeStats | apis.go:246-277 | Status failure, then decode failure; a peer with fewer than twelve details or a total of zero nodes is an error; on success the total is copied, the Tor count is the number of Tor peers, and the share is rounded to 2 decimals |
| Apis.TorShareApproximate | apis.go:274 | The Tor share lies within 0.005 of the exact percentage, and is not negative when the total is positive |
| Apis.GetFeeRecommendation | apis.go:295-320 | Success exactly on status 200 with a decoded body; each of the five fee tiers is passed through to its own field |
| Apis.GetLightningStats | apis.go:348-377 | Success exactly on status 200 with a decoded body; the counts are passed through, and the three capacities are in bitcoin to 3 decimals |
| Apis.LightningCapacitiesApproximate | apis.go:372-374 | A decoded status-200 reply always succeeds; each capacity, converted back, is within 50 000 satoshis of the upstream value |
| Apis.GetTipHeight | apis.go:442-456 | Success exactly on status 200, with the body text unchanged as the height |
| Apis.GetLatestBlockInfo | apis.go:405-440 | The tip-height failure comes first. Then the blocks request uses the height text verbatim, with a status or decode failure, or an empty list, as an error. On success, the first block gives every field, with size, rewards, fees and fee rate converted and rounded |
| Apis.BlocksEndpoint | apis.go:411 | The blocks path built from the tip height verbatim. No contract of its own; characterised by `GetLatestBlockInfo` |
| Apis.LatestBlockApproximate | apis.go:405-440 | With both requests answered 200 and a non-empty block list, the adapter succeeds; the block size, converted back, is within 5 000 bytes, the reward and fees within 50 000 satoshis, and the fee rate within 0.05 |
| Keywords.NameShape | main.go:13-19 | Every keyword has at least four characters and no space or hyphen |
| Keywords.NameInjective | main.go:12-20 | Different categories have different keywords |
| Keywords.NoKeywordInsideAnother | main.go:12-20 | No keyword occurs inside a different keyword |
| Keywords.TableIsVisitOrder | main.go:12-20 | The declaration order visits every category exactly once |
| Keywords.LatestBlockNeverAppears | main.go:24-32 | After lower-casing, neither `latestBlock` nor `-latestBlock` occurs in the query |
| Keywords.IncludeData | main.go:26-38 | The first loop. No contract of its own; characterised by `IncludeDataWhenMentioned`, `IncludeDataWhenNoneMentioned` and `SelectionIsResolve` |
| Keywords.IncludeDataWhenMentioned | main.go:28-38 | If some keyword in the visiting order is mentioned and not excluded, the first loop yields the whole query |
| Keywords.IncludeDataWhenNoneMentioned | main.go:28-38 | If no keyword is mentioned, the first loop yields its start text followed by a space and the keyword for each keyword that is not excluded |
| Keywords.JoinedContents | main.go:37 | The appended text is empty or starts with a space, has no hyphen, and contains a keyword exactly when that keyword was visited and is not excluded |
| Keywords.Selects | main.go:41 | The test of the second loop. No contract of its own; characterised by `SelectionByBranch` and `ExcludedNeverSelected` |
| Keywords.Selection | main.go:24-41 | The categories the two loops select. No contract of its own; characterised by `SelectionIsResolve` and `SelectionIgnoresVisitOrder` |
| Keywords.SelectionIsResolve | main.go:24-41 | For every visiting order, the two loops select exactly the mentioned keywords when there is one, and otherwise every keyword that is not excluded |
| Keywords.SelectionIgnoresVisitOrder | main.go:28-41 | Two visiting orders of the first loop select the same categories |
| Keywords.ExcludedNeverSelected | main.go:29-41 | A keyword whose exclusion form occurs is never selected |
| Keywords.SelectionByBranch | main.go:28-41 | A category is selected exactly when it is mentioned, if any keyword is mentioned; and otherwise exactly when it is not excluded |
| Keywords.NoMentionNoHyphenSelectsAll | main.go:28-41 | A query with no hyphen that mentions no keyword selects all seven categories |
| Keywords.EmptyQuerySelectsAll | main.go:24-41 | The empty query selects all seven categories |
| Keywords.LatestBlockSelectedIffNothingMentioned | main.go:14-41 | `latestBlock` is selected exactly when no other keyword is mentioned |
| Keywords.SingleMentionSelectsIt | main.go:28-41 | A query naming exactly one keyword, without that keyword's exclusion form, selects that category alone |
| Aggregation.Invoke | main.go:12-20 | The adapter the keyword table maps each category to, as called at main.go:42. No contract of its own; characterised by `Run` and `MempoolUnavailableExample` |
| Aggregation.AbortMessage | main.go:44 | "Failed to get " + keyword + " data: " + the error text. No contract of its own; characterised by `MempoolUnavailableMessage` and `AbortNamesFirstFailure` |
| Aggregation.ExitCode | main.go:45-60 | 1 on an abort and 0 on completion, as returned at main.go:45, 55 and 60. No contract of its own; characterised by `Run` and `SelectedFailureAborts` |
| Aggregation.Collect | main.go:40-50 | The second loop. No contract of its own; characterised by `CollectCompletes`, `CollectOutput` and `CollectFirstFailure` |
| Aggregation.CollectCompletes | main.go:40-50 | The second loop completes exactly when no selected category's adapter fails |
| Aggregation.CollectOutput | main.go:40-50 | A completed second loop adds one entry per selected keyword holding that adapter's record, and keeps every other entry |
| Aggregation.CollectFirstFailure | main.go:40-46 | An aborted second loop reports the failure of the first selected category, in visiting order, whose adapter fails |
| Aggregation.Run | main.go:11-61 | The run completes exactly when every category of `Resolve` succeeds; its output is keyed by exactly those keywords and holds their records; an abort names a failing selected category with its error text; the exit code is 0 exactly on completion |
| Aggregation.RunOutputIgnoresOrder | main.go:28-50 | Whether the run completes, and its output when it does, do not depend on either visiting order |
| Aggregation.SelectedFailureAborts | main.go:40-46 | A failing adapter of a selected category makes the run abort with exit code 1 |
| Aggregation.AbortNamesFirstFailure | main.go:40-46 | The abort message is that of the first failing selected category in the second visiting order |
| Scenarios.MempoolQuery | main.go:24-41 | The query `mempool` selects the mempool category alone |
| Scenarios.FeesButNotNodesQuery | main.go:24-41 | The query `fees nodes -nodes` selects only `fees` |
| Scenarios.EverythingExcludedQuery | main.go:28-41 | A query excluding the other six keywords still selects `latestBlock`, and only it |
| Scenarios.LatestBlockQuery | main.go:28-41 | The query `latestblock` selects all seven categories |
| Scenarios.MempoolRecordExample | apis.go:224-228 | 12 345 transactions, 2 500 000 vbytes and 150 000 000 satoshis of fees give 2.5 MB, 1.5 BTC and 3 blocks |
| Scenarios.MempoolUnavailableMessage | main.go:44 | The message for a 503 from the mempool endpoint names the category, the provider and the status |
| Scenarios.MempoolUnavailableExample | main.go:40-46 | With the mempool endpoint answering 503, the query `mempool` aborts with that message, whatever the visiting orders |

## Left out

- HTTP requests, the plug-in host's input, output and error channels, and the
  `main` stub. Each upstream response is a parameter. The blocks listing is a
  function from endpoint path to response, which keeps the dependence on the
  tip height visible.
- `json.Unmarshal`: the decoded response, or the decoder's error text, is
  part of each reply. Field types, tags and missing-field defaulting are not
  modelled.
- `json.Marshal` of the output and its failure message ("Failed to marshal the
  result."). In the source it can fail only on NaN or infinite floats. Only
  the zero-divisor cases become adapter errors here (see the next lines).
  Every other NaN or infinite value falls outside exact reals (see the IEEE
  754 line), so marshalling always succeeds here. Two examples: a
  `strconv.ParseFloat` result of NaN or ±Inf for a CoinCap field such as
  `priceUsd`, and a `roundDec` that overflows to +Inf, for example on a
  `difficultyChange` of 1e307.
- Apis.GetMarketData: a maximum supply of zero is an adapter error here. In
  the source the supply share becomes infinite or NaN and marshalling then
  fails.
  A price of zero is an adapter error here too. In the source the Moscow time
  would come from converting an infinite float to int64, which is
  implementation-defined.
- Apis.GetBitcoinNodeStats: a peer with fewer than twelve details is an
  adapter error here, where the source panics on the index. A total of zero
  nodes is an adapter error here too, where the source computes NaN or an
  infinite share and marshalling then fails.
- Apis.GetLatestBlockInfo: an empty block list is an adapter error here,
  where the source panics on the index.
- `strconv.ParseFloat` is a parameter (`FloatParser`): the syntax of Go
  float literals and its error texts are not modelled. A parser returns a real
  or an error, so its "NaN", "Inf" and "Infinity" results cannot be
  expressed.
- IEEE 754 float64: reals are exact, so float rounding errors, overflow, NaN
  and infinities are not modelled. `math.Pow(10, d)` is exact.
- Units.Truncate: does not model int64 overflow of the Moscow time, which
  would need a price below about 10⁻¹¹ dollars.
- Integer widths: the statuses, counts and satoshi amounts are unbounded
  integers. The source's int, int64 and the status's conversion to int never
  wrap for the values the providers send.
- `time.Time.Format(time.RFC1123)`: a timestamp is an opaque `Rfc1123Time`
  holding its Unix second. The calendar, the time zone and the text layout
  are not modelled.
- Text.Lower: only ASCII letters are lower-cased. Go's Unicode case mapping
  of other letters (for example the Kelvin sign, which becomes `k`) is not
  modelled.
- Concurrency and randomness: none in the core. The map iteration order is
  modelled as arbitrary visiting orders.
