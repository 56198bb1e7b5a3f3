# Options-strategy model of pyOptionAnalyzer

A Dafny model of the strategy layer of pyOptionAnalyzer, a toolkit for analysing
options strategies. The model covers four parts:

- **Option** (`option.dfy`, module `Options`) is one option position. Each market
  field is a `(bid, ask)` pair (`Quote`). The getters pick the ask for a long or
  zero amount and the bid for a short one. `get_price(midprice=True)` and
  `get_debit` fall back to the bid/ask midpoint. `get_copy` scales the implied
  volatility. `from_pandas` builds an option from a one-row table.
- **Strategy** (`strategy.dfy`, module `Strategies`) is a class. It refuses an
  empty leg list. One loop over the legs sets the min strike, the max strike and
  the nearest expiration.
- **CalendarSpread** (`calendar_spread.dfy`, module `CalendarSpreads`) runs five
  construction checks in a fixed order. The first failing check decides the
  error. The class orders its legs by expiration and sums the legs' traded prices
  and greeks. `plot` builds a P/L curve by adding up the legs' P/L into a buffer.
  `get_profit_probability` finds breakevens where the curve changes sign.
- **NCalendarSpread** (`n_calendar_spread.dfy`, module `NCalendarSpreads`) checks
  a list of calendars: same underlying, same near-term expiry, same next-term
  expiry.

Prices and greeks are exact `real`s. Amounts are `int`s. Dates are integer day
numbers. Four library routines stay abstract and are passed in as function
parameters: the Black–Scholes pricer (`Pricer`), the lognormal CDF and SF, and
`exp` (`Lognormal`). The code is Python 2, so `len(y_vector)/2` is integer
division. So is `(bid + ask) / 2` (`option.py:67`, `option.py:82`) when both quotes
are integers, as when a table's price columns hold only whole numbers. The model
always takes the exact half. `CalendarSpread` inherits from `Strategy` in the source. Here it holds
its strategy part in the field `strategy`.

## Model

| member | source | states |
|---|---|---|
| `Options.Lower` | pyOptionAnalyzer/option.py:24 | the lower-cased flag has the same length, contains no upper-case letter, keeps every other character, and moves each upper-case letter by 32 code points |
| `Options.LowerIdempotent` | pyOptionAnalyzer/option.py:24 | lower-casing a stored `right` again changes nothing |
| `Options.NewOption` | pyOptionAnalyzer/option.py:12-26 | every field is stored as given, except that `right` is lower-cased and no debit is recorded |
| `Options.FromPandas` | pyOptionAnalyzer/option.py:28-51 | fails exactly when the table does not have one row, and reports the row count; otherwise each pair is `(bid, ask)` from the matching columns |
| `Options.CopySign` | pyOptionAnalyzer/option.py:69 | `math.copysign(1, amount)` returns its first argument or its negation, and for a non-zero first argument the result is positive exactly when `amount >= 0` |
| `Options.Select` | pyOptionAnalyzer/option.py:69-70 | the rule `copysign(1, amount) > 0` picks the ask for `amount >= 0`, zero included, and the bid for `amount < 0` |
| `Options.GetPrice` | pyOptionAnalyzer/option.py:59-71 | midpoint `(bid + ask) / 2` when `midprice` is set; otherwise the ask for a non-negative amount and the bid for a negative one |
| `Options.GetDebit` | pyOptionAnalyzer/option.py:73-82 | the recorded debit when it is set and non-zero; the bid/ask midpoint when it is `None` or zero |
| `Options.DebitPositive` | pyOptionAnalyzer/option.py:78-82 | the promised positive debit holds when both quotes are positive and any recorded debit is positive |
| `Options.RecordedCreditKept` | pyOptionAnalyzer/option.py:78-82 | a recorded negative debit comes back negative, so the promise of a positive value is not enforced by the code |
| `Options.FreshDebitIsMidpoint` | pyOptionAnalyzer/option.py:26 | a freshly built option has no debit, so `get_debit` equals the midprice |
| `Options.GetDelta` | pyOptionAnalyzer/option.py:84-89 | the delta ask for a non-negative amount, the delta bid otherwise |
| `Options.GetGamma` | pyOptionAnalyzer/option.py:91-96 | the gamma ask for a non-negative amount, the gamma bid otherwise |
| `Options.GetTheta` | pyOptionAnalyzer/option.py:98-103 | the theta ask for a non-negative amount, the theta bid otherwise |
| `Options.GetVega` | pyOptionAnalyzer/option.py:105-110 | the vega ask for a non-negative amount, the vega bid otherwise |
| `Options.GetIv` | pyOptionAnalyzer/option.py:112-117 | the IV ask for a non-negative amount, the IV bid otherwise |
| `Options.OppositeAmountsOppositeSides` | pyOptionAnalyzer/option.py:88-89 | of two positions with opposite non-zero amounts, one gets the ask and the other the bid |
| `Options.GetCopy` | pyOptionAnalyzer/option.py:119-131 | the copy's IV pair is `(iv_bid * c, iv_ask * c)`, and every other field, the debit included, equals the original's |
| `Options.CopyKeepsPricesAndGreeks` | pyOptionAnalyzer/option.py:127-131 | a copy trades at the same price, debit and greeks, and its selected IV is the original's times `c` |
| `Options.CopyComposes` | pyOptionAnalyzer/option.py:128-130 | over exact reals, scaling by 1.0 gives back the original, and two scalings compose into one by the product |
| `Strategies.Strategy.constructor` | pyOptionAnalyzer/strategy.py:21-38 | the list is stored as given; after the loop the min strike is at most every leg's strike and is some leg's strike; the same holds (mirrored) for the max strike and the nearest expiration |
| `Strategies.NewStrategy` | pyOptionAnalyzer/strategy.py:6-38 | an empty list raises and builds nothing; otherwise a new strategy is built over the list unchanged, with its bounds |
| `Strategies.Strategy.GetTicker` | pyOptionAnalyzer/strategy.py:52-56 | the first leg's ticker |
| `Strategies.Strategy.GetStrikeBounds` | pyOptionAnalyzer/strategy.py:58-62 | `(min strike, max strike)`: bounds each attained by a leg, with min <= max |
| `Strategies.Strategy.GetNearestExpiration` | pyOptionAnalyzer/strategy.py:70-75 | an expiration no later than any leg's, attained by a leg |
| `CalendarSpreads.CheckCalendar` | pyOptionAnalyzer/calendar_spread.py:15-51 | the five checks run in order (ticker, strike, equal expirations, amounts, right): the reported error is violated and every earlier check passes; no error means no check is violated |
| `CalendarSpreads.AmountCheckIsSum` | pyOptionAnalyzer/calendar_spread.py:40-43 | the amount check passes exactly when the amounts sum to zero: the `abs` test adds nothing, and `(0, 0)` passes |
| `CalendarSpreads.CalendarSpread.constructor` | pyOptionAnalyzer/calendar_spread.py:12-63 | `options_list` keeps argument order; ticker, strike and right are the common values; the near-term leg expires strictly first whatever the argument order; `amount` is the second argument's; debit and greeks are sums of the legs' traded sides |
| `CalendarSpreads.NewCalendarSpread` | pyOptionAnalyzer/calendar_spread.py:12-51 | construction fails exactly when a check fails, with that check's error; otherwise the built calendar holds the two legs, ordered by expiration |
| `CalendarSpreads.CalendarSpread.GetTicker` | pyOptionAnalyzer/calendar_spread.py:13-20 | the inherited `get_ticker` of a built calendar is the calendar's own ticker |
| `CalendarSpreads.CalendarDebitSides` | pyOptionAnalyzer/calendar_spread.py:53-54 | a long calendar's debit is the near bid plus the next ask; a short one's is the near ask plus the next bid; with amounts `(0, 0)` it is both asks |
| `CalendarSpreads.CalendarSpread.Plot` | pyOptionAnalyzer/calendar_spread.py:108-127 | the curve has one point per price, and each point is the sum over the legs of `multiplier * amount * (price(right, x, strike, days/365, r, iv) - get_debit())` |
| `CalendarSpreads.AddLegPnL` | pyOptionAnalyzer/calendar_spread.py:123-126 | one `y += [...]` pass adds the leg's P/L at each price of the grid to that point and to no other |
| `CalendarSpreads.CalendarCurveIsSumOfTerms` | pyOptionAnalyzer/calendar_spread.py:122-126 | a calendar's curve is the near-term leg's P/L plus the next-term leg's, whichever order the legs were given in |
| `CalendarSpreads.ZeroCrossings` | pyOptionAnalyzer/calendar_spread.py:86 | every index returned is a sign change of the curve before its last point, and every such sign change is returned |
| `CalendarSpreads.ZeroCrossingsSpec` | pyOptionAnalyzer/calendar_spread.py:86 | the zero crossings are exactly the sign changes of the curve, in increasing order, at most `len(y) - 1` of them |
| `CalendarSpreads.Breakevens` | pyOptionAnalyzer/calendar_spread.py:87 | succeeds exactly when every crossing index lies on the price grid, and then the k-th breakeven is `x[zc[k]]` |
| `CalendarSpreads.ProfitProbability` | pyOptionAnalyzer/calendar_spread.py:74-106 | the error is flagged exactly when there are more than two breakevens, and the value is then 0; with no breakeven the value is 0.9999 or 0.0001; the single-breakeven failure needs exactly one crossing; the empty-curve failure happens exactly when the curve is empty (`y_vector[len/2]` at line 91); the off-grid failure happens exactly when some crossing index is past the end of `x_vector` |
| `CalendarSpreads.NoCrossingFollowsFirstPoint` | pyOptionAnalyzer/calendar_spread.py:90-91 | with no sign change the result is 0.9999 if the first point is positive, else 0.0001: the middle point tested has the first point's sign |
| `CalendarSpreads.UniformCurve` | pyOptionAnalyzer/calendar_spread.py:90-91 | a curve positive everywhere gives 0.9999, and one negative everywhere gives 0.0001, with no error |
| `CalendarSpreads.InteriorIsProbability` | pyOptionAnalyzer/calendar_spread.py:95-100 | when the SF is one minus the CDF and the CDF is a probability that does not decrease from the first breakeven to the second, the two-breakeven value `1 - SF(b1) - CDF(b0)` is the CDF's increase `CDF(b1) - CDF(b0)`, the probability of finishing between the breakevens, and lies in `[0, 1]` |
| `CalendarSpreads.TwoCrossings` | pyOptionAnalyzer/calendar_spread.py:92-100 | with sign changes after exactly `i < j`, the result is `1 - SF(x[j]) - CDF(x[i])` under the lognormal with scale `s * exp(r * t)` |
| `CalendarSpreads.ProfitProbabilityInUnitInterval` | pyOptionAnalyzer/calendar_spread.py:74-106 | on a strictly increasing price grid, under a lognormal whose CDF is a non-decreasing probability and whose SF is one minus the CDF, every probability returned lies in `[0, 1]` |
| `CalendarSpreads.ManyCrossings` | pyOptionAnalyzer/calendar_spread.py:88-89 | three or more sign changes on the grid flag the error and return 0 |
| `CalendarSpreads.OneCrossing` | pyOptionAnalyzer/calendar_spread.py:96-98 | a single sign change on the grid fails on reading the missing second breakeven |
| `CalendarSpreads.GridCoversCurve` | pyOptionAnalyzer/calendar_spread.py:87 | a price grid at least as long as the curve, as `plot` produces, never puts a breakeven off the grid |
| `CalendarSpreads.BreakevensIncreasing` | pyOptionAnalyzer/calendar_spread.py:86-87 | over an increasing price grid the breakevens come out strictly increasing, so `breakevens[0] < breakevens[1]` |
| `NCalendarSpreads.NewNCalendarSpreadAt` | pyOptionAnalyzer/n_calendar_spread.py:9-36 | an empty list fails in the strategy base first, so the constructor's own emptiness error never arises; a ticker mismatch is reported before either expiry check; then a near-term expiry other than the nearest one; then a next-term expiry other than the first calendar's; success keeps the common values |
| `NCalendarSpreads.NearestExpirationAsWritten` | pyOptionAnalyzer/strategy.py:31-38 | the strategy base's nearest-expiration scan succeeds exactly when every leg has an `expiration`, and then gives a value no later than any leg's or the starting one; otherwise it raises AttributeError |
| `NCalendarSpreads.NewNCalendarSpreadAsWritten` | pyOptionAnalyzer/n_calendar_spread.py:10 | as written, construction never succeeds: an empty list fails in the strategy base, and on any other list the base's scan raises at the first calendar, which has no `expiration` |
| `NCalendarSpreads.EarliestNearTerm` | pyOptionAnalyzer/n_calendar_spread.py:26-31 | the nearest expiration, taken as the earliest near-term expiry: at most every calendar's, and equal to one of them |
| `NCalendarSpreads.EarliestIsCommon` | pyOptionAnalyzer/n_calendar_spread.py:26-31 | all near-term expiries are equal exactly when all of them equal the earliest one |
| `NCalendarSpreads.NewNCalendarSpread` | pyOptionAnalyzer/n_calendar_spread.py:9-36 | the corrected construction accepts exactly the non-empty lists with one ticker and both expiries shared, and keeps those common values |
| `NCalendarSpreads.AsWrittenRejectsConsistentList` | pyOptionAnalyzer/n_calendar_spread.py:10 | a consistent list that the corrected construction accepts is refused as written |
| `NCalendarSpreads.NCalendarSpread.Len` | pyOptionAnalyzer/n_calendar_spread.py:38-39 | the length is zero exactly when the group holds no calendars |
| `NCalendarSpreads.LenCountsCalendars` | pyOptionAnalyzer/n_calendar_spread.py:38-39 | the length of a built group is the number of calendars, and at least one |

## Left out

- `isinstance` checks (`option.py:33-34`, `strategy.py:15-16`): the Dafny types already guarantee a table and a list.
- Date parsing (`datetime.strptime`, `option.py:48`) and `timedelta.days`: dates are day numbers, and `(expiration - date).days` is their difference.
- Black–Scholes pricing, `lognorm.cdf`, `lognorm.sf` and `numpy.exp`: these are library floating-point numerics. They are function parameters, so no property of them is assumed.
- Floating point: prices are exact reals. `numpy.sign` of NaN and float rounding are not modelled. `Options.CopyComposes` holds over exact reals only: with floats, `(iv * c1) * c2` and `iv * (c1 * c2)` can differ.
- `CalendarSpreads.ProfitProbability`: the result is not clipped to `[0, 1]`, because the code does not clip it. The debug `print` calls are not modelled. Of the printed messages, only the "more than 2 zeroes" error is kept, as the `shapeError` flag.
- `CalendarSpreads.CalendarSpread.Plot`: a date past a leg's expiry gives a negative time, which goes to the pricer as is, as in the code. The result is a sequence, not a numpy array.
- `Option.__str__`, `Strategy.__str__`, `__repr__` and `__iter__`, and `CalendarSpread.__str__`: text formatting and the iteration protocol. `CalendarSpread.__str__` also reads `self.call`, which is never set.
- `CalendarSpread.__len__`: it returns the signed amount, which may be negative. It is not a length.
- `Strategy.__len__`, `plot` and `get_profit_probability`, which raise `NotImplementedError`, and `NCalendarSpread.plot` and `get_profit_probability`, which are `pass` stubs.
- Aliasing: options are values, so a copy made by `get_copy` cannot share state with the original.
- Field assignment order when a check fails: the source sets some fields before it raises, but the half-built object is never returned. The model checks first and builds nothing on failure.
- `NewCalendarSpread` runs the five checks before it builds the strategy part. For two legs the strategy part cannot fail, so the order makes no difference.
- `NCalendarSpreads.NewNCalendarSpreadAt`: the nearest expiration is a parameter, because as written the strategy base cannot compute it for calendars (see Findings). The strategy base's min and max strike over calendars are not modelled.
- `Options.GetDebit`: the docstring promises a positive value, but the code returns a recorded debit as it is. `Options.DebitPositive` states when the promise holds, and `Options.RecordedCreditKept` shows a recorded credit staying negative.
- `Options.Lower`: only ASCII letters are lower-cased. `unicode.lower()` also lower-cases non-ASCII letters, which the model does not.
- Default arguments are explicit parameters: `amount=1` (`option.py:13`, `option.py:29`), `underlying_amount=0` and `name='Unknown'` (`strategy.py:6`), and `midprice=False` (`option.py:59`).
- `amount` is an integer. A float amount of `-0.0`, for which `copysign` would pick the bid, is not modelled.

## Findings

| source | as written | input that shows it | evidently intended | confidence | as-written member | corrected member |
|---|---|---|---|---|---|---|
| pyOptionAnalyzer/n_calendar_spread.py:10 | the strategy base's bounds loop (`strategy.py:36-38`) takes the `is None` branch on the first calendar and assigns `opt.expiration`, an attribute `CalendarSpread` never sets, so every non-empty list raises AttributeError at its first calendar | a one-element list `[c]` for any built calendar `c` | the nearest expiration is the earliest near-term expiry, and a list with one ticker and shared expiries is accepted | not executed | `NCalendarSpreads.NewNCalendarSpreadAsWritten`, shown by `NCalendarSpreads.AsWrittenRejectsConsistentList` | `NCalendarSpreads.NewNCalendarSpread` |
