/** One option contract position (pyOptionAnalyzer/option.py): market data kept
    as (bid, ask) pairs, and selectors that pick the side a position trades at. */
module Options {
  import opened Wrappers

  /** A market field recorded as a (bid, ask) pair: index 0 is the bid, index 1 the ask. */
  datatype Quote = Quote(bid: real, ask: real)

  /** An option position. `expiration` is a day number; `amount` is signed
      (positive long, negative short); `debit` is the establishment price, if
      one was ever recorded. */
  datatype Option = Option(
    ticker: string,
    strike: real,
    expiration: int,
    impliedVolatility: Quote,
    bidAsk: Quote,
    delta: Quote,
    gamma: Quote,
    theta: Quote,
    vega: Quote,
    multiplier: real,
    right: string,
    amount: int,
    debit: Maybe<real>)

  /** One row of an option-chain table, with the columns `from_pandas` reads.
      `expiry` is already a day number. */
  datatype Row = Row(
    symbol: string,
    strike: real,
    expiry: int,
    right: string,
    multiplier: real,
    bid: real,
    ask: real,
    bidDelta: real,
    askDelta: real,
    bidGamma: real,
    askGamma: real,
    bidTheta: real,
    askTheta: real,
    bidVega: real,
    askVega: real,
    bidImpliedVolatility: real,
    askImpliedVolatility: real)

  datatype OptionError = WrongRowCount(rows: nat)

  // ---------------------------------------------------------------------------
  // Lower-casing of the `right` flag (ASCII letters only)

  predicate IsUpper(c: char) { 'A' <= c <= 'Z' }

  function LowerChar(c: char): char
  {
    if IsUpper(c) then (c as int - 'A' as int + 'a' as int) as char else c
  }

  /** `str.lower()` restricted to ASCII: every upper-case letter becomes its
      lower-case partner and every other character is kept. */
  function Lower(s: string): (r: string)
    ensures |r| == |s|
    ensures forall i :: 0 <= i < |r| ==> !IsUpper(r[i])
    ensures forall i :: 0 <= i < |s| && !IsUpper(s[i]) ==> r[i] == s[i]
    ensures forall i :: 0 <= i < |s| && IsUpper(s[i]) ==> r[i] as int == s[i] as int + 32
  {
    if s == [] then [] else [LowerChar(s[0])] + Lower(s[1..])
  }

  /** Lower-casing a flag that is already lower case changes nothing. */
  lemma LowerIdempotent(s: string)
    ensures Lower(Lower(s)) == Lower(s)
  {
  }

  // ---------------------------------------------------------------------------
  // Construction

  /** `Option.__init__`: every field is stored as given, except that `right` is
      lower-cased and no debit is recorded yet. */
  function NewOption(ticker: string, strike: real, expiration: int,
                     impliedVolatility: Quote, bidAsk: Quote,
                     delta: Quote, gamma: Quote, theta: Quote, vega: Quote,
                     multiplier: real, right: string, amount: int): (o: Option)
    ensures o.ticker == ticker && o.strike == strike && o.expiration == expiration
    ensures o.impliedVolatility == impliedVolatility && o.bidAsk == bidAsk
    ensures o.delta == delta && o.gamma == gamma && o.theta == theta && o.vega == vega
    ensures o.multiplier == multiplier && o.amount == amount
    ensures o.right == Lower(right) && o.debit == Nothing
  {
    Option(ticker, strike, expiration, impliedVolatility, bidAsk,
           delta, gamma, theta, vega, multiplier, Lower(right), amount, Nothing)
  }

  /** `Option.from_pandas`: a table must hold exactly one row; each pair is
      built in (bid, ask) order from that row's matching columns. */
  function FromPandas(df: seq<Row>, amount: int): (r: Result<Option, OptionError>)
    ensures r.Failure? <==> |df| != 1
    ensures r.Failure? ==> r.error == WrongRowCount(|df|)
    ensures r.Success? ==>
      var row, o := df[0], r.value;
      o.ticker == row.symbol && o.strike == row.strike && o.expiration == row.expiry &&
      o.bidAsk == Quote(row.bid, row.ask) &&
      o.delta == Quote(row.bidDelta, row.askDelta) &&
      o.gamma == Quote(row.bidGamma, row.askGamma) &&
      o.theta == Quote(row.bidTheta, row.askTheta) &&
      o.vega == Quote(row.bidVega, row.askVega) &&
      o.impliedVolatility == Quote(row.bidImpliedVolatility, row.askImpliedVolatility) &&
      o.multiplier == row.multiplier && o.right == Lower(row.right) &&
      o.amount == amount && o.debit == Nothing
  {
    if |df| != 1 then
      Failure(WrongRowCount(|df|))
    else
      var row := df[0];
      Success(NewOption(row.symbol, row.strike, row.expiry,
                        Quote(row.bidImpliedVolatility, row.askImpliedVolatility),
                        Quote(row.bid, row.ask),
                        Quote(row.bidDelta, row.askDelta),
                        Quote(row.bidGamma, row.askGamma),
                        Quote(row.bidTheta, row.askTheta),
                        Quote(row.bidVega, row.askVega),
                        row.multiplier, row.right, amount))
  }

  // ---------------------------------------------------------------------------
  // Side selection

  /** `math.copysign(m, n)` for an integer `n`: the magnitude of `m` with the
      sign of `n`; an integer zero is +0.0 and so counts as positive. */
  function CopySign(m: real, n: int): (r: real)
    ensures r == m || r == -m
    ensures m != 0.0 ==> (r > 0.0 <==> n >= 0)
  {
    var magnitude := if m < 0.0 then -m else m;
    if n >= 0 then magnitude else -magnitude
  }

  /** The side a position trades at: the ask when `copysign(1, amount) > 0`,
      the bid otherwise. */
  function Select(q: Quote, amount: int): (r: real)
    ensures amount >= 0 ==> r == q.ask
    ensures amount < 0 ==> r == q.bid
  {
    if CopySign(1.0, amount) > 0.0 then q.ask else q.bid
  }

  function Midpoint(q: Quote): real
  {
    (q.bid + q.ask) / 2.0
  }

  /** `get_price`: the bid/ask midpoint when asked for, else the traded side. */
  function GetPrice(o: Option, midprice: bool): (p: real)
    ensures midprice ==> p == (o.bidAsk.bid + o.bidAsk.ask) / 2.0
    ensures !midprice && o.amount >= 0 ==> p == o.bidAsk.ask
    ensures !midprice && o.amount < 0 ==> p == o.bidAsk.bid
  {
    if midprice then Midpoint(o.bidAsk) else Select(o.bidAsk, o.amount)
  }

  /** `get_debit`: the recorded debit when it is set and non-zero (Python
      truthiness), otherwise the bid/ask midpoint. */
  function GetDebit(o: Option): (d: real)
    ensures o.debit.Just? && o.debit.value != 0.0 ==> d == o.debit.value
    ensures o.debit == Nothing || o.debit == Just(0.0) ==> d == (o.bidAsk.bid + o.bidAsk.ask) / 2.0
  {
    match o.debit
    case Just(v) => if v != 0.0 then v else Midpoint(o.bidAsk)
    case Nothing => Midpoint(o.bidAsk)
  }

  /** The debit is positive when both quotes are and any recorded debit is.
      A recorded negative debit (a credit) is returned as it is. */
  lemma DebitPositive(o: Option)
    requires o.bidAsk.bid > 0.0 && o.bidAsk.ask > 0.0
    requires o.debit.Just? ==> o.debit.value > 0.0
    ensures GetDebit(o) > 0.0
  {
  }

  /** A recorded credit is not made positive: `get_debit` returns it unchanged. */
  lemma RecordedCreditKept(o: Option)
    requires o.debit.Just? && o.debit.value < 0.0
    ensures GetDebit(o) < 0.0
  {
  }

  function GetDelta(o: Option): (g: real)
    ensures o.amount >= 0 ==> g == o.delta.ask
    ensures o.amount < 0 ==> g == o.delta.bid
  {
    Select(o.delta, o.amount)
  }

  function GetGamma(o: Option): (g: real)
    ensures o.amount >= 0 ==> g == o.gamma.ask
    ensures o.amount < 0 ==> g == o.gamma.bid
  {
    Select(o.gamma, o.amount)
  }

  function GetTheta(o: Option): (g: real)
    ensures o.amount >= 0 ==> g == o.theta.ask
    ensures o.amount < 0 ==> g == o.theta.bid
  {
    Select(o.theta, o.amount)
  }

  function GetVega(o: Option): (g: real)
    ensures o.amount >= 0 ==> g == o.vega.ask
    ensures o.amount < 0 ==> g == o.vega.bid
  {
    Select(o.vega, o.amount)
  }

  function GetIv(o: Option): (v: real)
    ensures o.amount >= 0 ==> v == o.impliedVolatility.ask
    ensures o.amount < 0 ==> v == o.impliedVolatility.bid
  {
    Select(o.impliedVolatility, o.amount)
  }

  /** A freshly built option has no recorded debit, so its debit is the midpoint
      price. */
  lemma FreshDebitIsMidpoint(ticker: string, strike: real, expiration: int,
                             impliedVolatility: Quote, bidAsk: Quote,
                             delta: Quote, gamma: Quote, theta: Quote, vega: Quote,
                             multiplier: real, right: string, amount: int)
    ensures var o := NewOption(ticker, strike, expiration, impliedVolatility, bidAsk,
                               delta, gamma, theta, vega, multiplier, right, amount);
            GetDebit(o) == GetPrice(o, true)
  {
  }

  /** Two positions of opposite non-zero amounts on the same quotes trade at
      opposite sides: one pays the ask, the other receives the bid. */
  lemma OppositeAmountsOppositeSides(q: Quote, a: int, b: int)
    requires a + b == 0 && a != 0
    ensures {Select(q, a), Select(q, b)} == {q.bid, q.ask}
  {
  }

  // ---------------------------------------------------------------------------
  // Scenario copies

  /** `get_copy`: an independent copy whose IV pair is scaled by `ivChange`;
      every other field, the recorded debit included, is the original's. */
  function GetCopy(o: Option, ivChange: real): (c: Option)
    ensures c.impliedVolatility == Quote(o.impliedVolatility.bid * ivChange,
                                         o.impliedVolatility.ask * ivChange)
    ensures c.(impliedVolatility := o.impliedVolatility) == o
  {
    o.(impliedVolatility := Quote(o.impliedVolatility.bid * ivChange,
                                  o.impliedVolatility.ask * ivChange))
  }

  /** A copy trades at the same prices and greeks; only its IV is scaled. */
  lemma CopyKeepsPricesAndGreeks(o: Option, ivChange: real, midprice: bool)
    ensures var c := GetCopy(o, ivChange);
            GetPrice(c, midprice) == GetPrice(o, midprice) && GetDebit(c) == GetDebit(o) &&
            GetDelta(c) == GetDelta(o) && GetGamma(c) == GetGamma(o) &&
            GetTheta(c) == GetTheta(o) && GetVega(c) == GetVega(o) &&
            GetIv(c) == GetIv(o) * ivChange
  {
  }

  /** Scaling by 1.0 gives back the original, and two successive scenario
      shifts compose into one. */
  lemma CopyComposes(o: Option, c1: real, c2: real)
    ensures GetCopy(o, 1.0) == o
    ensures GetCopy(GetCopy(o, c1), c2) == GetCopy(o, c1 * c2)
  {
  }
}
