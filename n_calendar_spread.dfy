/** A group of calendar spreads (pyOptionAnalyzer/n_calendar_spread.py) on one
    underlying, all sharing the same near-term and next-term expirations. */
module NCalendarSpreads {
  import opened Wrappers
  import CalendarSpreads

  type CalendarSpread = CalendarSpreads.CalendarSpread

  /** Why construction fails, in the order the constructor can fail. */
  datatype NCalendarError =
    | EmptyOptionsList    // raised by the strategy base for an empty list
    | NoCalendars         // the constructor's own emptiness check
    | TickerMismatch
    | NearTermMismatch
    | NextTermMismatch
    | MissingExpiration   // AttributeError: a calendar has no `expiration`

  datatype NCalendarSpread = NCalendarSpread(
    calendarList: seq<CalendarSpread>,
    ticker: string,
    nearTermExp: int,
    nextTermExp: int)
  {
    /** `__len__`. */
    function Len(): (n: nat)
      ensures n == 0 <==> calendarList == []
    {
      |calendarList|
    }
  }

  predicate SameTicker(cals: seq<CalendarSpread>)
  {
    forall i :: 0 <= i < |cals| ==> cals[i].ticker == cals[0].ticker
  }

  predicate SameNearTerm(cals: seq<CalendarSpread>)
  {
    forall i :: 0 <= i < |cals| ==> cals[i].nearTermOpt.expiration == cals[0].nearTermOpt.expiration
  }

  predicate SameNextTerm(cals: seq<CalendarSpread>)
  {
    forall i :: 0 <= i < |cals| ==> cals[i].nextTermOpt.expiration == cals[0].nextTermOpt.expiration
  }

  /** The checks of `NCalendarSpread.__init__`, with `nearest` standing for
      what the strategy base reports as its nearest expiration: an empty list
      is refused by the base first (so the constructor's own emptiness check
      never fires), then every calendar must have the first one's ticker,
      every near-term leg must expire at `nearest`, and every next-term leg
      with the first calendar's. */
  function NewNCalendarSpreadAt(calendars: seq<CalendarSpread>, nearest: int): (r: Result<NCalendarSpread, NCalendarError>)
    requires forall c <- calendars :: c.Formed()
    ensures r == Failure(EmptyOptionsList) <==> calendars == []
    ensures r != Failure(NoCalendars) && r != Failure(MissingExpiration)
    ensures r == Failure(TickerMismatch) <==> calendars != [] && !SameTicker(calendars)
    ensures r == Failure(NearTermMismatch) <==>
      calendars != [] && SameTicker(calendars) &&
      exists i :: 0 <= i < |calendars| && calendars[i].nearTermOpt.expiration != nearest
    ensures r == Failure(NextTermMismatch) <==>
      calendars != [] && SameTicker(calendars) &&
      (forall i :: 0 <= i < |calendars| ==> calendars[i].nearTermOpt.expiration == nearest) &&
      !SameNextTerm(calendars)
    ensures r.Success? ==>
      r.value == NCalendarSpread(calendars, calendars[0].ticker, nearest, calendars[0].nextTermOpt.expiration)
  {
    if calendars == [] then
      Failure(EmptyOptionsList)
    else if calendars == [] then
      Failure(NoCalendars)
    else
      var firstTicker := calendars[0].GetTicker();
      if !(forall c <- calendars :: c.GetTicker() == firstTicker) then
        Failure(TickerMismatch)
      else
        assert forall i :: 0 <= i < |calendars| ==> calendars[i] in calendars;
        if !(forall c <- calendars :: c.nearTermOpt.expiration == nearest) then
          Failure(NearTermMismatch)
        else
          var nextTermExp := calendars[0].nextTermOpt.expiration;
          if !(forall c <- calendars :: c.nextTermOpt.expiration == nextTermExp) then
            Failure(NextTermMismatch)
          else
            Success(NCalendarSpread(calendars, firstTicker, nearest, nextTermExp))
  }

  /** A leg as the strategy base's bounds loop sees it: the `strike` it
      reads, and the `expiration` attribute, which may be missing. */
  datatype LegView = LegView(strike: real, expiration: Maybe<int>)

  /** A calendar spread seen as a leg: it sets `strike`
      (pyOptionAnalyzer/calendar_spread.py:26) but never `expiration`. */
  function AsLeg(c: CalendarSpread): LegView
  {
    LegView(c.strike, Nothing)
  }

  function AsLegs(calendars: seq<CalendarSpread>): (legs: seq<LegView>)
    ensures |legs| == |calendars|
    ensures forall i :: 0 <= i < |calendars| ==> legs[i] == AsLeg(calendars[i])
  {
    seq(|calendars|, i requires 0 <= i < |calendars| => AsLeg(calendars[i]))
  }

  /** The nearest-expiration part of the strategy base's bounds loop, from
      `nearest` (`Nothing` for `None`) over `legs`: reading a missing
      `expiration` raises AttributeError. The strikes are always present and
      cannot raise, so their bounds are not tracked here. */
  function NearestExpirationAsWritten(legs: seq<LegView>, nearest: Maybe<int>): (r: Result<int, NCalendarError>)
    requires legs != [] || nearest.Just?
    ensures r.Success? <==> forall i :: 0 <= i < |legs| ==> legs[i].expiration.Just?
    ensures r.Failure? ==> r.error == MissingExpiration
    ensures r.Success? ==> forall i :: 0 <= i < |legs| ==> r.value <= legs[i].expiration.value
    ensures r.Success? && nearest.Just? ==> r.value <= nearest.value
    ensures r.Success? ==>
      (exists i :: 0 <= i < |legs| && legs[i].expiration == Just(r.value)) ||
      (nearest.Just? && r.value == nearest.value)
    decreases |legs|
  {
    if legs == [] then Success(nearest.value)
    else
      match legs[0].expiration
      case Nothing => Failure(MissingExpiration)
      case Just(e) =>
        var next := if nearest == Nothing || e < nearest.value then Just(e) else nearest;
        var rest := NearestExpirationAsWritten(legs[1..], next);
        assert rest.Success? ==> forall i :: 1 <= i < |legs| ==> legs[i] == legs[1..][i - 1];
        rest
  }

  /** The constructor's own checks, once the strategy base has reported its
      nearest expiration or raised. */
  function AfterStrategyBase(calendars: seq<CalendarSpread>, base: Result<int, NCalendarError>): Result<NCalendarSpread, NCalendarError>
    requires forall c <- calendars :: c.Formed()
  {
    match base
    case Failure(e) => Failure(e)
    case Success(nearest) => NewNCalendarSpreadAt(calendars, nearest)
  }

  /** `NCalendarSpread.__init__` as written: the strategy base refuses an
      empty list, then its bounds loop reads each calendar's missing
      `expiration`, so no list gets as far as the constructor's own checks. */
  function NewNCalendarSpreadAsWritten(calendars: seq<CalendarSpread>): (r: Result<NCalendarSpread, NCalendarError>)
    requires forall c <- calendars :: c.Formed()
    ensures r.Failure? && r.error in {EmptyOptionsList, MissingExpiration}
  {
    if calendars == [] then Failure(EmptyOptionsList)
    else AfterStrategyBase(calendars, NearestExpirationAsWritten(AsLegs(calendars), Nothing))
  }

  /** The earliest near-term expiration among the calendars: the nearest
      expiration the strategy base would find if each calendar exposed its
      near-term expiration. */
  function EarliestNearTerm(calendars: seq<CalendarSpread>): (e: int)
    requires calendars != []
    ensures forall i :: 0 <= i < |calendars| ==> e <= calendars[i].nearTermOpt.expiration
    ensures exists i :: 0 <= i < |calendars| && calendars[i].nearTermOpt.expiration == e
  {
    if |calendars| == 1 then calendars[0].nearTermOpt.expiration
    else
      var rest := EarliestNearTerm(calendars[1..]);
      if calendars[0].nearTermOpt.expiration < rest then calendars[0].nearTermOpt.expiration else rest
  }

  /** All near-term legs expire together exactly when they all expire at the
      earliest near-term expiration. */
  lemma EarliestIsCommon(calendars: seq<CalendarSpread>)
    requires calendars != []
    ensures SameNearTerm(calendars) <==>
      forall i :: 0 <= i < |calendars| ==> calendars[i].nearTermOpt.expiration == EarliestNearTerm(calendars)
  {
  }

  /** `NCalendarSpread.__init__` as evidently intended, the nearest expiration
      being the earliest near-term expiration of the calendars: it accepts
      exactly the non-empty lists of calendars on one underlying sharing both
      expirations, and keeps those common values. */
  function NewNCalendarSpread(calendars: seq<CalendarSpread>): (r: Result<NCalendarSpread, NCalendarError>)
    requires forall c <- calendars :: c.Formed()
    ensures r.Success? <==>
      calendars != [] && SameTicker(calendars) && SameNearTerm(calendars) && SameNextTerm(calendars)
    ensures r.Success? ==>
      r.value.calendarList == calendars && r.value.ticker == calendars[0].ticker &&
      r.value.nearTermExp == calendars[0].nearTermOpt.expiration &&
      r.value.nextTermExp == calendars[0].nextTermOpt.expiration
    ensures r.Failure? ==> r.error in {EmptyOptionsList, TickerMismatch, NearTermMismatch, NextTermMismatch}
  {
    if calendars == [] then Failure(EmptyOptionsList)
    else
      EarliestIsCommon(calendars);
      NewNCalendarSpreadAt(calendars, EarliestNearTerm(calendars))
  }

  /** The discrepancy: a list the intended construction accepts is still
      refused as written. */
  lemma AsWrittenRejectsConsistentList(calendars: seq<CalendarSpread>)
    requires forall c <- calendars :: c.Formed()
    requires calendars != [] && SameTicker(calendars) && SameNearTerm(calendars) && SameNextTerm(calendars)
    ensures NewNCalendarSpread(calendars).Success?
    ensures NewNCalendarSpreadAsWritten(calendars) == Failure(MissingExpiration)
  {
  }

  /** A constructed group counts its calendars, and holds at least one. */
  lemma LenCountsCalendars(calendars: seq<CalendarSpread>, nearest: int)
    requires forall c <- calendars :: c.Formed()
    ensures var r := NewNCalendarSpreadAt(calendars, nearest);
      r.Success? ==> r.value.Len() == |calendars| && r.value.Len() >= 1
  {
  }
}
