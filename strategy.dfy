/** The strategy base (pyOptionAnalyzer/strategy.py): a non-empty list of legs
    and the strike and expiration bounds computed once over them. */
module Strategies {
  import opened Wrappers
  import opened Options

  datatype StrategyError = EmptyOptionsList

  /** `m` bounds every leg's strike from below and is some leg's strike. */
  predicate IsMinStrike(legs: seq<Option>, m: real)
  {
    (forall i :: 0 <= i < |legs| ==> m <= legs[i].strike) &&
    (exists i :: 0 <= i < |legs| && legs[i].strike == m)
  }

  /** `m` bounds every leg's strike from above and is some leg's strike. */
  predicate IsMaxStrike(legs: seq<Option>, m: real)
  {
    (forall i :: 0 <= i < |legs| ==> legs[i].strike <= m) &&
    (exists i :: 0 <= i < |legs| && legs[i].strike == m)
  }

  /** `e` is the earliest expiration among the legs. */
  predicate IsNearestExpiration(legs: seq<Option>, e: int)
  {
    (forall i :: 0 <= i < |legs| ==> e <= legs[i].expiration) &&
    (exists i :: 0 <= i < |legs| && legs[i].expiration == e)
  }

  class Strategy {
    const optionsList: seq<Option>
    const underlyingAmount: int
    const strategyName: string
    var minStrike: real
    var maxStrike: real
    var nearestExpiration: int

    ghost predicate Valid()
      reads this
    {
      |optionsList| > 0 &&
      IsMinStrike(optionsList, minStrike) &&
      IsMaxStrike(optionsList, maxStrike) &&
      IsNearestExpiration(optionsList, nearestExpiration)
    }

    /** `Strategy.__init__` once the list is known to be non-empty: the list is
        kept as given and one pass over it fixes the bounds. */
    constructor (options: seq<Option>, underlyingAmount: int, name: string)
      requires |options| > 0
      ensures Valid()
      ensures optionsList == options
      ensures this.underlyingAmount == underlyingAmount && strategyName == name
    {
      optionsList := options;
      this.underlyingAmount := underlyingAmount;
      strategyName := name;
      new;
      // Before the first leg the three bounds are unset (Python's None);
      // `i == 0` plays that part in the guards below.
      var i := 0;
      while i < |optionsList|
        invariant 0 <= i <= |optionsList|
        invariant i > 0 ==> IsMinStrike(optionsList[..i], minStrike)
        invariant i > 0 ==> IsMaxStrike(optionsList[..i], maxStrike)
        invariant i > 0 ==> IsNearestExpiration(optionsList[..i], nearestExpiration)
      {
        var opt := optionsList[i];
        if i == 0 || opt.strike < minStrike {
          minStrike := opt.strike;
        }
        if i == 0 || opt.strike > maxStrike {
          maxStrike := opt.strike;
        }
        if i == 0 || opt.expiration < nearestExpiration {
          nearestExpiration := opt.expiration;
        }
        i := i + 1;
      }
      assert optionsList[..i] == optionsList;
    }

    /** `get_ticker`: the ticker of the first leg. */
    function GetTicker(): (t: string)
      requires |optionsList| > 0
      ensures t == optionsList[0].ticker
    {
      optionsList[0].ticker
    }

    /** `get_strike_bounds`: (min strike, max strike) over the legs. */
    function GetStrikeBounds(): (b: (real, real))
      reads this
      requires Valid()
      ensures IsMinStrike(optionsList, b.0) && IsMaxStrike(optionsList, b.1)
      ensures b.0 <= b.1
    {
      (minStrike, maxStrike)
    }

    /** `get_nearest_expiration`: the earliest expiration among the legs. */
    function GetNearestExpiration(): (e: int)
      reads this
      requires Valid()
      ensures IsNearestExpiration(optionsList, e)
    {
      nearestExpiration
    }
  }

  /** `Strategy(options_list, underlying_amount, name)`: an empty list raises
      before any field is set; otherwise the strategy is built over the list. */
  method NewStrategy(options: seq<Option>, underlyingAmount: int, name: string)
    returns (r: Result<Strategy, StrategyError>)
    ensures r.Failure? <==> options == []
    ensures r.Failure? ==> r.error == EmptyOptionsList
    ensures r.Success? ==> fresh(r.value) && r.value.Valid() && r.value.optionsList == options &&
                           r.value.underlyingAmount == underlyingAmount &&
                           r.value.strategyName == name
  {
    if options == [] {
      return Failure(EmptyOptionsList);
    }
    var s := new Strategy(options, underlyingAmount, name);
    return Success(s);
  }
}
