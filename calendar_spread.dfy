/** The calendar spread (pyOptionAnalyzer/calendar_spread.py): two legs of the
    same underlying, strike and right, opposite amounts and different
    expirations; its aggregate debit and greeks, its P/L curve and the
    breakeven-based probability of profit. */
module CalendarSpreads {
  import opened Wrappers
  import opened Options
  import opened Strategies

  // ---------------------------------------------------------------------------
  // Construction checks

  /** One error per construction check, in the order the checks run. */
  datatype CalendarError =
    | TickerMismatch
    | StrikeMismatch
    | SameExpiration
    | AmountsNotOpposite
    | RightMismatch

  /** The position of a check in the order the constructor runs them. */
  function Rank(e: CalendarError): nat
  {
    match e
    case TickerMismatch => 0
    case StrikeMismatch => 1
    case SameExpiration => 2
    case AmountsNotOpposite => 3
    case RightMismatch => 4
  }

  /** What each error reports about a pair of legs. The amount condition is
      stated as the sum alone: one leg long, the other short by as much. */
  predicate Violates(e: CalendarError, a: Option, b: Option)
  {
    match e
    case TickerMismatch => a.ticker != b.ticker
    case StrikeMismatch => a.strike != b.strike
    case SameExpiration => a.expiration == b.expiration
    case AmountsNotOpposite => a.amount + b.amount != 0
    case RightMismatch => a.right != b.right
  }

  function Abs(n: int): nat
  {
    if n < 0 then -n else n
  }

  /** The constructor's five checks, run in order: the first that fails decides
      the error; a pair passing all five is accepted. */
  function CheckCalendar(near: Option, next: Option): (r: Maybe<CalendarError>)
    ensures r == Nothing ==> forall e :: !Violates(e, near, next)
    ensures r.Just? ==> Violates(r.value, near, next)
    ensures r.Just? ==> forall e :: Rank(e) < Rank(r.value) ==> !Violates(e, near, next)
  {
    if near.ticker != next.ticker then Just(TickerMismatch)
    else if near.strike != next.strike then Just(StrikeMismatch)
    else if near.expiration == next.expiration then Just(SameExpiration)
    else if Abs(near.amount) != Abs(next.amount) || near.amount + next.amount != 0 then
      Just(AmountsNotOpposite)
    else if near.right != next.right then Just(RightMismatch)
    else Nothing
  }

  // ---------------------------------------------------------------------------
  // The spread

  class CalendarSpread {
    /** The strategy part (the superclass): the legs in argument order and the
        bounds computed over them. */
    const strategy: Strategy
    const ticker: string
    const strike: real
    const nearTermOpt: Option
    const nextTermOpt: Option
    const amount: int
    const right: string
    const debit: real
    const delta: real
    const gamma: real
    const theta: real
    const vega: real

    /** The calendar invariant over its immutable fields. */
    predicate Formed()
    {
      |strategy.optionsList| == 2 &&
      var a, b := strategy.optionsList[0], strategy.optionsList[1];
      CheckCalendar(a, b) == Nothing &&
      ticker == a.ticker == b.ticker && strike == a.strike == b.strike &&
      right == a.right == b.right && amount == b.amount &&
      multiset{nearTermOpt, nextTermOpt} == multiset{a, b} &&
      nearTermOpt.expiration < nextTermOpt.expiration &&
      debit == GetPrice(a, false) + GetPrice(b, false) &&
      delta == GetDelta(a) + GetDelta(b) && gamma == GetGamma(a) + GetGamma(b) &&
      theta == GetTheta(a) + GetTheta(b) && vega == GetVega(a) + GetVega(b)
    }

    ghost predicate Valid()
      reads strategy
    {
      Formed() && strategy.Valid()
    }

    /** `CalendarSpread.__init__` once the five checks have passed. */
    constructor (near: Option, next: Option)
      requires CheckCalendar(near, next) == Nothing
      ensures fresh(strategy) && Valid()
      ensures strategy.optionsList == [near, next]
      ensures strategy.strategyName == "Calendar Spread" && strategy.underlyingAmount == 0
      ensures ticker == near.ticker == next.ticker
      ensures strike == near.strike == next.strike
      ensures right == near.right == next.right
      ensures nearTermOpt.expiration < nextTermOpt.expiration
      ensures near.expiration < next.expiration ==> nearTermOpt == near && nextTermOpt == next
      ensures near.expiration > next.expiration ==> nearTermOpt == next && nextTermOpt == near
      ensures amount == next.amount
      ensures debit == GetPrice(near, false) + GetPrice(next, false)
      ensures delta == GetDelta(near) + GetDelta(next) && gamma == GetGamma(near) + GetGamma(next)
      ensures theta == GetTheta(near) + GetTheta(next) && vega == GetVega(near) + GetVega(next)
    {
      assert !Violates(SameExpiration, near, next);
      strategy := new Strategy([near, next], 0, "Calendar Spread");
      ticker := near.ticker;
      strike := near.strike;
      if near.expiration > next.expiration {
        nearTermOpt, nextTermOpt := next, near;
      } else {
        nearTermOpt, nextTermOpt := near, next;
      }
      // The next-term argument gives the sign of the calendar.
      amount := next.amount;
      right := near.right;
      debit := GetPrice(near, false) + GetPrice(next, false);
      delta := GetDelta(near) + GetDelta(next);
      gamma := GetGamma(near) + GetGamma(next);
      theta := GetTheta(near) + GetTheta(next);
      vega := GetVega(near) + GetVega(next);
    }

    /** `get_ticker` (inherited): the first leg's ticker, which is the calendar's. */
    function GetTicker(): (t: string)
      requires Formed()
      ensures t == ticker
    {
      strategy.GetTicker()
    }

    /** `plot`: the P/L at each price of `xVector`, accumulated leg by leg into
        a buffer of zeros, as the sum over the legs of
        `multiplier * amount * (price(...) - get_debit())`. */
    method Plot(xVector: seq<real>, date: int, r: real, iv: real, price: Pricer)
      returns (y: seq<real>)
      ensures |y| == |xVector|
      ensures forall j :: 0 <= j < |y| ==> y[j] == PnLAt(strategy.optionsList, xVector[j], date, r, iv, price)
    {
      var legs := strategy.optionsList;
      var acc := new real[|xVector|](_ => 0.0);
      var k := 0;
      while k < |legs|
        invariant 0 <= k <= |legs|
        invariant forall j :: 0 <= j < acc.Length ==> acc[j] == PnLAt(legs[..k], xVector[j], date, r, iv, price)
      {
        AddLegPnL(acc, legs[k], xVector, date, r, iv, price);
        assert legs[..k + 1][..k] == legs[..k];
        k := k + 1;
      }
      assert legs[..k] == legs;
      y := acc[..];
    }
  }

  /** One pass of `y += [...]`: adds one leg's P/L at every price of the grid. */
  method AddLegPnL(acc: array<real>, opt: Option, xVector: seq<real>, date: int, r: real, iv: real, price: Pricer)
    requires acc.Length == |xVector|
    modifies acc
    ensures forall j :: 0 <= j < acc.Length ==> acc[j] == old(acc[j]) + LegPnL(opt, xVector[j], date, r, iv, price)
  {
    var t := (opt.expiration - date) as real / 365.0;
    var j := 0;
    while j < acc.Length
      invariant 0 <= j <= acc.Length
      invariant forall i :: 0 <= i < j ==> acc[i] == old(acc[i]) + LegPnL(opt, xVector[i], date, r, iv, price)
      invariant forall i :: j <= i < acc.Length ==> acc[i] == old(acc[i])
    {
      acc[j] := acc[j] + opt.multiplier * opt.amount as real *
                (price(opt.right, xVector[j], opt.strike, t, r, iv) - GetDebit(opt));
      j := j + 1;
    }
  }

  /** `CalendarSpread(near_term_option, next_term_option)`: the first failing
      check raises its error; a pair passing all of them builds the spread. */
  method NewCalendarSpread(near: Option, next: Option) returns (r: Result<CalendarSpread, CalendarError>)
    ensures r.Failure? <==> CheckCalendar(near, next).Just?
    ensures r.Failure? ==> CheckCalendar(near, next) == Just(r.error)
    ensures r.Success? ==> var c := r.value;
      fresh(c) && fresh(c.strategy) && c.Valid() &&
      c.strategy.optionsList == [near, next] &&
      c.ticker == near.ticker && c.strike == near.strike && c.right == near.right &&
      c.amount == next.amount &&
      c.nearTermOpt.expiration < c.nextTermOpt.expiration &&
      multiset{c.nearTermOpt, c.nextTermOpt} == multiset{near, next}
  {
    var check := CheckCalendar(near, next);
    if check.Just? {
      return Failure(check.value);
    }
    var c := new CalendarSpread(near, next);
    return Success(c);
  }

  /** The debit of a built calendar is what its legs trade at: the long leg
      pays the ask and the short leg receives the bid, the next-term argument's
      amount telling which is which; with both amounts zero both pay the ask. */
  lemma CalendarDebitSides(c: CalendarSpread)
    requires c.Formed()
    ensures var a, b := c.strategy.optionsList[0], c.strategy.optionsList[1];
      (c.amount > 0 ==> c.debit == a.bidAsk.bid + b.bidAsk.ask) &&
      (c.amount < 0 ==> c.debit == a.bidAsk.ask + b.bidAsk.bid) &&
      (c.amount == 0 ==> c.debit == a.bidAsk.ask + b.bidAsk.ask)
  {
  }

  /** The amount check accepts exactly the pairs that sum to zero: its `abs`
      test adds nothing, and (0, 0) passes. */
  lemma AmountCheckIsSum(near: Option, next: Option)
    requires !Violates(TickerMismatch, near, next) && !Violates(StrikeMismatch, near, next)
    requires !Violates(SameExpiration, near, next)
    ensures CheckCalendar(near, next) != Just(AmountsNotOpposite) <==> near.amount + next.amount == 0
  {
  }

  // ---------------------------------------------------------------------------
  // The P/L curve

  /** The Black–Scholes pricer, a library function left abstract:
      (right, underlying price, strike, years to expiration, rate, volatility). */
  type Pricer = (string, real, real, real, real, real) -> real

  /** Years from `date` to the leg's expiration, as `.days / 365.`. */
  function YearsToExpiration(opt: Option, date: int): real
  {
    (opt.expiration - date) as real / 365.0
  }

  /** One leg's P/L at underlying price `x`. */
  function LegPnL(opt: Option, x: real, date: int, r: real, iv: real, price: Pricer): real
  {
    opt.multiplier * opt.amount as real *
      (price(opt.right, x, opt.strike, YearsToExpiration(opt, date), r, iv) - GetDebit(opt))
  }

  /** The strategy P/L at `x`: the legs' P/L added in list order. */
  function PnLAt(legs: seq<Option>, x: real, date: int, r: real, iv: real, price: Pricer): real
  {
    if legs == [] then 0.0
    else PnLAt(legs[..|legs| - 1], x, date, r, iv, price) + LegPnL(legs[|legs| - 1], x, date, r, iv, price)
  }

  /** The curve of a built calendar is the near-term leg's P/L plus the
      next-term leg's, whichever order the legs were given in. */
  lemma CalendarCurveIsSumOfTerms(c: CalendarSpread, x: real, date: int, r: real, iv: real, price: Pricer)
    requires c.Formed()
    ensures PnLAt(c.strategy.optionsList, x, date, r, iv, price) ==
            LegPnL(c.nearTermOpt, x, date, r, iv, price) + LegPnL(c.nextTermOpt, x, date, r, iv, price)
  {
    var legs := c.strategy.optionsList;
    var a, b := legs[0], legs[1];
    assert legs[..1] == [a] && [a][..0] == [];
    assert PnLAt([a], x, date, r, iv, price) == LegPnL(a, x, date, r, iv, price);
    assert PnLAt(legs, x, date, r, iv, price) == LegPnL(a, x, date, r, iv, price) + LegPnL(b, x, date, r, iv, price);
    PairPermutation(c.nearTermOpt, c.nextTermOpt, a, b);
  }

  /** Two two-element multisets are equal only if the pairs agree up to order. */
  lemma PairPermutation<T>(n1: T, n2: T, a: T, b: T)
    requires multiset{n1, n2} == multiset{a, b}
    ensures (n1 == a && n2 == b) || (n1 == b && n2 == a)
  {
  }

  // ---------------------------------------------------------------------------
  // Breakevens and the probability of profit

  /** `numpy.sign`. */
  function Sign(v: real): int
  {
    if v > 0.0 then 1 else if v < 0.0 then -1 else 0
  }

  /** The curve changes sign between points `i` and `i + 1`. */
  predicate Crosses(y: seq<real>, i: int)
    requires 0 <= i < |y| - 1
  {
    Sign(y[i]) != Sign(y[i + 1])
  }

  /** The indices `i >= from` where `numpy.diff(numpy.sign(y))` is non-zero,
      in increasing order. */
  function CrossingsFrom(y: seq<real>, from: nat): seq<nat>
    requires from <= |y|
    decreases |y| - from
  {
    if from + 1 >= |y| then []
    else (if Sign(y[from]) != Sign(y[from + 1]) then [from] else []) + CrossingsFrom(y, from + 1)
  }

  /** Every index in the crossing list from `from` is a sign change at or after `from`. */
  lemma {:induction false} CrossingsSound(y: seq<real>, from: nat)
    requires from <= |y|
    decreases |y| - from
    ensures forall k :: 0 <= k < |CrossingsFrom(y, from)| ==>
      from <= CrossingsFrom(y, from)[k] < |y| - 1 && Crosses(y, CrossingsFrom(y, from)[k])
  {
    if from + 1 < |y| {
      CrossingsSound(y, from + 1);
      var rest := CrossingsFrom(y, from + 1);
      var head: seq<nat> := if Crosses(y, from) then [from] else [];
      var zc := head + rest;
      assert CrossingsFrom(y, from) == zc;
      forall k | 0 <= k < |zc| ensures from <= zc[k] < |y| - 1 && Crosses(y, zc[k]) {
        if k >= |head| {
          assert zc[k] == rest[k - |head|];
        }
      }
    }
  }

  /** Every sign change at or after `from` is in the crossing list from `from`. */
  lemma {:induction false} CrossingsComplete(y: seq<real>, from: nat)
    requires from <= |y|
    decreases |y| - from
    ensures forall j :: from <= j < |y| - 1 && Crosses(y, j) ==> j in CrossingsFrom(y, from)
  {
    if from + 1 < |y| {
      CrossingsComplete(y, from + 1);
      var rest := CrossingsFrom(y, from + 1);
      var head: seq<nat> := if Crosses(y, from) then [from] else [];
      assert CrossingsFrom(y, from) == head + rest;
      forall j | from <= j < |y| - 1 && Crosses(y, j) ensures j in CrossingsFrom(y, from) {
        if j == from {
          assert j in head;
        } else {
          assert j in rest;
        }
      }
    }
  }

  /** The crossing list from `from` is strictly increasing and has at most
      `|y| - 1 - from` entries. */
  lemma {:induction false} CrossingsIncreasing(y: seq<real>, from: nat)
    requires from <= |y|
    decreases |y| - from
    ensures var zc := CrossingsFrom(y, from);
      (forall k, l :: 0 <= k < l < |zc| ==> zc[k] < zc[l]) &&
      |zc| <= (if from < |y| then |y| - 1 - from else 0)
  {
    if from + 1 < |y| {
      CrossingsIncreasing(y, from + 1);
      CrossingsSound(y, from + 1);
      var rest := CrossingsFrom(y, from + 1);
      var head: seq<nat> := if Crosses(y, from) then [from] else [];
      var zc := head + rest;
      assert CrossingsFrom(y, from) == zc;
      forall k, l | 0 <= k < l < |zc| ensures zc[k] < zc[l] {
        if k < |head| {
          assert zc[k] == from && zc[l] == rest[l - |head|];
        } else {
          assert zc[k] == rest[k - |head|] && zc[l] == rest[l - |head|];
        }
      }
    }
  }

  /** The zero crossings of a curve: its sign changes, in order, at most
      `|y| - 1` of them. */
  lemma ZeroCrossingsSpec(y: seq<real>)
    ensures var zc := ZeroCrossings(y);
      (forall k :: 0 <= k < |zc| ==> zc[k] < |y| - 1 && Crosses(y, zc[k])) &&
      (forall j :: 0 <= j < |y| - 1 && Crosses(y, j) ==> j in zc) &&
      (forall k, l :: 0 <= k < l < |zc| ==> zc[k] < zc[l]) &&
      (|y| > 0 ==> |zc| <= |y| - 1)
  {
    CrossingsIncreasing(y, 0);
  }

  /** `numpy.where(numpy.diff(numpy.sign(y)))[0]`: the indices `i` where the
      sign of `y[i]` differs from that of `y[i + 1]`. */
  function ZeroCrossings(y: seq<real>): (zc: seq<nat>)
    ensures forall k :: 0 <= k < |zc| ==> zc[k] < |y| - 1 && Crosses(y, zc[k])
    ensures forall j :: 0 <= j < |y| - 1 && Crosses(y, j) ==> j in zc
  {
    CrossingsSound(y, 0);
    CrossingsComplete(y, 0);
    CrossingsFrom(y, 0)
  }

  /** Why `get_profit_probability` raises. Each is an IndexError:
      a crossing index past the end of `x_vector`, an empty curve, or a single
      breakeven (whose second element is read). */
  datatype ProbabilityError = BreakevenOffGrid | EmptyCurve | SingleBreakeven

  /** The lognormal distribution functions and `exp`, library numerics left
      abstract: `cdf(x, shape, scale)` and `sf(x, shape, scale)`. */
  datatype Lognormal = Lognormal(
    cdf: (real, real, real) -> real,
    sf: (real, real, real) -> real,
    exp: real -> real)

  /** The returned probability, and whether the "more than 2 zeroes" error was
      reported (printed) on the way. */
  datatype Probability = Probability(value: real, shapeError: bool)

  /** The probability of finishing between `b0` and `b1`: one minus the mass
      above `b1` and the mass below `b0`, under a lognormal of shape `iv` and
      scale `s * exp(r * t)`. */
  function LognormalInterior(b0: real, b1: real, iv: real, s: real, r: real, t: real, dist: Lognormal): real
  {
    var scale := Scale(s, r, t, dist);
    1.0 - Sf(dist, b1, iv, scale) - Cdf(dist, b0, iv, scale)
  }

  /** `s * exp(r * t)`, the scale of the lognormal. */
  function Scale(s: real, r: real, t: real, dist: Lognormal): real
  {
    s * dist.exp(r * t)
  }

  /** `lognorm.cdf(x, shape, scale)`. */
  function Cdf(dist: Lognormal, x: real, shape: real, scale: real): real
  {
    dist.cdf(x, shape, scale)
  }

  /** `lognorm.sf(x, shape, scale)`. */
  function Sf(dist: Lognormal, x: real, shape: real, scale: real): real
  {
    dist.sf(x, shape, scale)
  }

  /** When the SF is one minus the CDF and the CDF is a probability that does
      not decrease from `b0` to `b1`, the interior mass is the CDF's increase
      over `[b0, b1]`, and so a probability. */
  lemma InteriorIsProbability(b0: real, b1: real, iv: real, s: real, r: real, t: real, dist: Lognormal)
    requires Sf(dist, b1, iv, Scale(s, r, t, dist)) == 1.0 - Cdf(dist, b1, iv, Scale(s, r, t, dist))
    requires 0.0 <= Cdf(dist, b0, iv, Scale(s, r, t, dist))
    requires Cdf(dist, b0, iv, Scale(s, r, t, dist)) <= Cdf(dist, b1, iv, Scale(s, r, t, dist)) <= 1.0
    ensures LognormalInterior(b0, b1, iv, s, r, t, dist) ==
            Cdf(dist, b1, iv, Scale(s, r, t, dist)) - Cdf(dist, b0, iv, Scale(s, r, t, dist))
    ensures 0.0 <= LognormalInterior(b0, b1, iv, s, r, t, dist) <= 1.0
  {
  }

  /** `[x_vector[i] for i in zero_crossings]`. */
  function Breakevens(xVector: seq<real>, zc: seq<nat>): (b: Result<seq<real>, ProbabilityError>)
    ensures b.Success? <==> forall k :: 0 <= k < |zc| ==> zc[k] < |xVector|
    ensures b.Success? ==> |b.value| == |zc| && forall k :: 0 <= k < |zc| ==> b.value[k] == xVector[zc[k]]
    ensures b.Failure? ==> b.error == BreakevenOffGrid
  {
    if forall k :: 0 <= k < |zc| ==> zc[k] < |xVector| then
      Success(seq(|zc|, k requires 0 <= k < |zc| => xVector[zc[k]]))
    else
      Failure(BreakevenOffGrid)
  }

  /** `get_profit_probability`: more than two breakevens report an error and
      give 0; none give 0.9999 or 0.0001 by the sign of the middle point; two
      give 1 - SF(b1) - CDF(b0) under a lognormal of scale `s * exp(r * t)`. */
  function ProfitProbability(xVector: seq<real>, yVector: seq<real>, iv: real, s: real, r: real, t: real,
                             dist: Lognormal): (p: Result<Probability, ProbabilityError>)
    ensures p.Success? ==> (p.value.shapeError <==> |ZeroCrossings(yVector)| > 2)
    ensures p.Success? && p.value.shapeError ==> p.value.value == 0.0
    ensures p.Success? && |ZeroCrossings(yVector)| == 0 ==> p.value.value == 0.9999 || p.value.value == 0.0001
    ensures p.Failure? ==> p.error == SingleBreakeven ==> |ZeroCrossings(yVector)| == 1
    ensures p == Failure(EmptyCurve) <==> |yVector| == 0
    ensures p == Failure(BreakevenOffGrid) <==>
      exists k :: 0 <= k < |ZeroCrossings(yVector)| && ZeroCrossings(yVector)[k] >= |xVector|
  {
    match Breakevens(xVector, ZeroCrossings(yVector))
    case Failure(e) => Failure(e)
    case Success(breakevens) =>
      if |breakevens| > 2 then
        Success(Probability(0.0, true))
      else if |breakevens| == 0 then
        if |yVector| == 0 then Failure(EmptyCurve)
        else Success(Probability(if yVector[|yVector| / 2] > 0.0 then 0.9999 else 0.0001, false))
      else if |breakevens| == 1 then
        Failure(SingleBreakeven)
      else
        Success(Probability(LognormalInterior(breakevens[0], breakevens[1], iv, s, r, t, dist), false))
  }

  /** No crossing in [from, to) means the crossings from `from` are those from `to`. */
  lemma {:induction false} CrossingsSkip(y: seq<real>, from: nat, to: nat)
    requires from <= to <= |y|
    requires forall j :: from <= j < to && j < |y| - 1 ==> !Crosses(y, j)
    ensures CrossingsFrom(y, from) == CrossingsFrom(y, to)
    decreases |y| - from
  {
    if from < to {
      CrossingsSkip(y, from + 1, to);
      if from + 1 < |y| {
        assert !Crosses(y, from);
        assert CrossingsFrom(y, from) == [] + CrossingsFrom(y, from + 1);
      }
    }
  }

  /** A curve with no crossing before point `m` has the sign of its first point there. */
  lemma {:induction false} SameSignUpTo(y: seq<real>, m: nat)
    requires m < |y|
    requires forall j :: 0 <= j < m ==> !Crosses(y, j)
    ensures Sign(y[m]) == Sign(y[0])
  {
    if m > 0 {
      SameSignUpTo(y, m - 1);
      assert !Crosses(y, m - 1);
    }
  }

  /** With no sign change the outcome follows the sign of the first point: the
      middle point tested by `get_profit_probability` has that same sign. */
  lemma NoCrossingFollowsFirstPoint(xVector: seq<real>, yVector: seq<real>, iv: real, s: real, r: real, t: real,
                                    dist: Lognormal)
    requires |yVector| > 0
    requires forall j :: 0 <= j < |yVector| - 1 ==> !Crosses(yVector, j)
    ensures ProfitProbability(xVector, yVector, iv, s, r, t, dist) ==
            Success(Probability(if yVector[0] > 0.0 then 0.9999 else 0.0001, false))
  {
    CrossingsSkip(yVector, 0, |yVector|);
    SameSignUpTo(yVector, |yVector| / 2);
  }

  /** A curve that is profitable everywhere gives 0.9999; one that loses
      everywhere gives 0.0001. */
  lemma UniformCurve(xVector: seq<real>, yVector: seq<real>, iv: real, s: real, r: real, t: real,
                     dist: Lognormal)
    requires |yVector| > 0
    requires (forall j :: 0 <= j < |yVector| ==> yVector[j] > 0.0) ||
             (forall j :: 0 <= j < |yVector| ==> yVector[j] < 0.0)
    ensures var p := ProfitProbability(xVector, yVector, iv, s, r, t, dist);
      p.Success? && !p.value.shapeError &&
      p.value.value == (if yVector[0] > 0.0 then 0.9999 else 0.0001)
  {
    forall j | 0 <= j < |yVector| - 1 ensures !Crosses(yVector, j) {
      assert Sign(yVector[j]) == Sign(yVector[j + 1]);
    }
    NoCrossingFollowsFirstPoint(xVector, yVector, iv, s, r, t, dist);
  }

  /** Exactly two sign changes, after points `i < j` on the grid, give one
      minus the lognormal tails beyond `x[i]` and `x[j]`. */
  lemma TwoCrossings(xVector: seq<real>, yVector: seq<real>, iv: real, s: real, r: real, t: real,
                     dist: Lognormal, i: nat, j: nat)
    requires i < j < |yVector| - 1 && j < |xVector|
    requires Crosses(yVector, i) && Crosses(yVector, j)
    requires forall k :: 0 <= k < |yVector| - 1 && Crosses(yVector, k) ==> k == i || k == j
    ensures ProfitProbability(xVector, yVector, iv, s, r, t, dist) ==
            Success(Probability(LognormalInterior(xVector[i], xVector[j], iv, s, r, t, dist), false))
  {
    CrossingsAreTwo(yVector, i, j);
    var b := Breakevens(xVector, ZeroCrossings(yVector));
    assert b.Success? && |b.value| == 2 && b.value[0] == xVector[i] && b.value[1] == xVector[j];
  }

  /** The crossing list of a curve that changes sign exactly after `i` and `j`. */
  lemma CrossingsAreTwo(y: seq<real>, i: nat, j: nat)
    requires i < j < |y| - 1
    requires Crosses(y, i) && Crosses(y, j)
    requires forall k :: 0 <= k < |y| - 1 && Crosses(y, k) ==> k == i || k == j
    ensures ZeroCrossings(y) == [i, j]
  {
    CrossingsSkip(y, j + 1, |y|);
    CrossingAt(y, j);
    assert CrossingsFrom(y, j) == [j];
    CrossingsSkip(y, i + 1, j);
    CrossingAt(y, i);
    assert CrossingsFrom(y, i) == [i, j];
    CrossingsSkip(y, 0, i);
  }

  /** A crossing after point `from` heads the list of crossings from there. */
  lemma CrossingAt(y: seq<real>, from: nat)
    requires from < |y| - 1 && Crosses(y, from)
    ensures CrossingsFrom(y, from) == [from] + CrossingsFrom(y, from + 1)
  {
  }

  /** Three or more sign changes on the grid report the error and give 0. */
  lemma ManyCrossings(xVector: seq<real>, yVector: seq<real>, iv: real, s: real, r: real, t: real,
                      dist: Lognormal, i: nat, j: nat, k: nat)
    requires i < j < k < |yVector| - 1 && |yVector| <= |xVector|
    requires Crosses(yVector, i) && Crosses(yVector, j) && Crosses(yVector, k)
    ensures ProfitProbability(xVector, yVector, iv, s, r, t, dist) == Success(Probability(0.0, true))
  {
    var zc := ZeroCrossings(yVector);
    ZeroCrossingsSpec(yVector);
    assert i in zc && j in zc && k in zc;
    if |zc| <= 2 {
      assert false;
    }
  }

  /** A single sign change on the grid makes `get_profit_probability` read a second breakeven
      that is not there. */
  lemma OneCrossing(xVector: seq<real>, yVector: seq<real>, iv: real, s: real, r: real, t: real,
                    dist: Lognormal, i: nat)
    requires i < |yVector| - 1 && i < |xVector|
    requires Crosses(yVector, i)
    requires forall k :: 0 <= k < |yVector| - 1 && Crosses(yVector, k) ==> k == i
    ensures ProfitProbability(xVector, yVector, iv, s, r, t, dist) == Failure(SingleBreakeven)
  {
    CrossingsSkip(yVector, 0, i);
    CrossingsSkip(yVector, i + 1, |yVector|);
    assert CrossingsFrom(yVector, i) == [i] + CrossingsFrom(yVector, i + 1) == [i];
    assert ZeroCrossings(yVector) == [i];
  }

  /** A price grid at least as long as the curve (as `plot` produces) never
      puts a breakeven off the grid. */
  lemma GridCoversCurve(xVector: seq<real>, yVector: seq<real>, iv: real, s: real, r: real, t: real,
                        dist: Lognormal)
    requires |yVector| <= |xVector|
    ensures ProfitProbability(xVector, yVector, iv, s, r, t, dist) != Failure(BreakevenOffGrid)
  {
    var zc := ZeroCrossings(yVector);
    ZeroCrossingsSpec(yVector);
    assert forall k :: 0 <= k < |zc| ==> zc[k] < |xVector|;
  }

  /** Over an increasing price grid the breakevens come out in increasing order. */
  lemma BreakevensIncreasing(xVector: seq<real>, yVector: seq<real>)
    requires forall a, b :: 0 <= a < b < |xVector| ==> xVector[a] < xVector[b]
    ensures var be := Breakevens(xVector, ZeroCrossings(yVector));
      be.Success? ==> forall a, b :: 0 <= a < b < |be.value| ==> be.value[a] < be.value[b]
  {
    ZeroCrossingsSpec(yVector);
  }

  /** "The probability of obtaining a profit" is a probability: on a strictly
      increasing grid, under a lognormal whose CDF is a non-decreasing
      probability and whose SF is one minus the CDF, every value returned lies
      in `[0, 1]`. */
  lemma ProfitProbabilityInUnitInterval(xVector: seq<real>, yVector: seq<real>, iv: real, s: real, r: real,
                                        t: real, dist: Lognormal)
    requires forall a, b :: 0 <= a < b < |xVector| ==> xVector[a] < xVector[b]
    requires forall x :: Sf(dist, x, iv, Scale(s, r, t, dist)) == 1.0 - Cdf(dist, x, iv, Scale(s, r, t, dist))
    requires forall x :: 0.0 <= Cdf(dist, x, iv, Scale(s, r, t, dist)) <= 1.0
    requires forall x, x' :: x <= x' ==> Cdf(dist, x, iv, Scale(s, r, t, dist)) <= Cdf(dist, x', iv, Scale(s, r, t, dist))
    ensures var p := ProfitProbability(xVector, yVector, iv, s, r, t, dist);
      p.Success? ==> 0.0 <= p.value.value <= 1.0
  {
    var be := Breakevens(xVector, ZeroCrossings(yVector));
    if be.Success? && |be.value| == 2 {
      BreakevensIncreasing(xVector, yVector);
      InteriorIsProbability(be.value[0], be.value[1], iv, s, r, t, dist);
    }
  }
}
