/** The farm list of the Farms page (src/views/Farms/Farms.tsx): the farms of
    the page's mode are split into active and inactive ones, the route and
    the "staked only" toggle choose one set, every farm of it gets an APY
    estimate and a liquidity value, the search text filters the set by pair
    label, the sort option orders it, and each row is labelled.

    The page's state (`tokenMode`, `pathname`, `stackedOnly`, `query`,
    `sortOption`) and the prices (`cakePrice`, `bnbPrice`, `apePrice`) and
    `BLOCKS_PER_YEAR` are inputs here; the page recomputes everything from
    them on each render, so the pipeline is a function of them. */
module Farms {
  import opened Seqs
  import opened JsStrings
  import opened BigDecimal
  import opened OrderBy

  /** The quote tokens the derivation distinguishes; every other member of
      the `QuoteToken` enumeration behaves like `OtherQuote`. */
  datatype QuoteToken = BNB | CAKE | BANANA | OtherQuote

  /** The connected account's position in a farm. */
  datatype UserData = UserData(stakedBalance: real, earnings: real)

  /** A farm descriptor as the data layer supplies it (the fields the page
      reads). `None` is an absent (`undefined` or `null`) field:
      - `tapsPerBlock`: a present 0 is falsy as well, and `TapsPerBlock`
        treats it as absent;
      - `lpTotalInQuoteToken`: a present amount, 0 included, is a BigNumber
        and so truthy; only `None` is falsy;
      - `userData`: absent when no account is connected. */
  datatype Farm = Farm(
    pid: int,
    lpSymbol: string,
    isTokenOnly: bool,
    multiplier: string,
    tapsPerBlock: Option<real>,
    poolWeight: real,
    lpTotalInQuoteToken: Option<real>,
    quoteTokenSymbol: QuoteToken,
    userData: Option<UserData>)

  /** `{ ...farm, apy, liquidity }`: the farm with its derived values. */
  datatype FarmWithStakedValue = FarmWithStakedValue(farm: Farm, apy: real, liquidity: Option<real>)

  /** The prices the page reads (all in the same accounting currency) and
      the network's number of blocks per year. */
  datatype Market = Market(cakePrice: real, bnbPrice: real, apePrice: real, blocksPerYear: real)

  /** The page's inputs: its mode, the route, and the three controls. */
  datatype PageState = PageState(
    tokenMode: bool,
    pathname: string,
    stackedOnly: bool,
    query: string,
    sortOption: string)

  // ---------------------------------------------------------------------
  // Active, inactive and staked-only farms

  /** The multiplier label of a farm that no longer earns rewards. */
  const InactiveMultiplier: string := "0X"

  /** `!!farm.isTokenOnly === !!tokenMode` */
  predicate InMode(farm: Farm, tokenMode: bool) {
    farm.isTokenOnly == tokenMode
  }

  predicate IsActive(farm: Farm, tokenMode: bool) {
    InMode(farm, tokenMode) && farm.multiplier != InactiveMultiplier
  }

  predicate IsInactive(farm: Farm, tokenMode: bool) {
    InMode(farm, tokenMode) && farm.multiplier == InactiveMultiplier
  }

  /** `farm.userData && new BigNumber(farm.userData.stakedBalance).isGreaterThan(0)` */
  predicate HasStake(farm: Farm) {
    farm.userData.Some? && farm.userData.value.stakedBalance > 0.0
  }

  function InModeTest(tokenMode: bool): Farm -> bool {
    farm => InMode(farm, tokenMode)
  }

  function ActiveTest(tokenMode: bool): Farm -> bool {
    farm => IsActive(farm, tokenMode)
  }

  function InactiveTest(tokenMode: bool): Farm -> bool {
    farm => IsInactive(farm, tokenMode)
  }

  function StakedTest(tokenMode: bool): Farm -> bool {
    farm => IsActive(farm, tokenMode) && HasStake(farm)
  }

  function ActiveFarms(farmsLP: seq<Farm>, tokenMode: bool): seq<Farm> {
    Filter(farmsLP, ActiveTest(tokenMode))
  }

  function InactiveFarms(farmsLP: seq<Farm>, tokenMode: bool): seq<Farm> {
    Filter(farmsLP, InactiveTest(tokenMode))
  }

  function StackedOnlyFarms(farmsLP: seq<Farm>, tokenMode: bool): seq<Farm> {
    Filter(ActiveFarms(farmsLP, tokenMode), HasStake)
  }

  /** The active and inactive lists keep the input's order, hold exactly the
      farms of the page's mode with a multiplier other than, respectively
      equal to, "0X", and together hold every farm of the mode exactly once. */
  lemma PartitionByMultiplier(farmsLP: seq<Farm>, tokenMode: bool)
    ensures IsSubseq(ActiveFarms(farmsLP, tokenMode), farmsLP)
    ensures IsSubseq(InactiveFarms(farmsLP, tokenMode), farmsLP)
    ensures forall f :: f in ActiveFarms(farmsLP, tokenMode) <==>
      f in farmsLP && InMode(f, tokenMode) && f.multiplier != InactiveMultiplier
    ensures forall f :: f in InactiveFarms(farmsLP, tokenMode) <==>
      f in farmsLP && InMode(f, tokenMode) && f.multiplier == InactiveMultiplier
    ensures multiset(ActiveFarms(farmsLP, tokenMode)) + multiset(InactiveFarms(farmsLP, tokenMode))
      == multiset(Filter(farmsLP, InModeTest(tokenMode)))
  {
    FilterIsSubseq(farmsLP, ActiveTest(tokenMode));
    FilterIsSubseq(farmsLP, InactiveTest(tokenMode));
    FilterSplit(farmsLP, InModeTest(tokenMode), ActiveTest(tokenMode), InactiveTest(tokenMode),
      (farm: Farm) => farm.multiplier != InactiveMultiplier);
  }

  /** The staked-only list is the subsequence of the active list whose farms
      have user data with a positive staked balance; it is also the
      subsequence of the input holding exactly those farms. */
  lemma StakedOnlySubset(farmsLP: seq<Farm>, tokenMode: bool)
    ensures StackedOnlyFarms(farmsLP, tokenMode) == Filter(farmsLP, StakedTest(tokenMode))
    ensures IsSubseq(StackedOnlyFarms(farmsLP, tokenMode), ActiveFarms(farmsLP, tokenMode))
    ensures IsSubseq(StackedOnlyFarms(farmsLP, tokenMode), farmsLP)
    ensures forall f :: f in StackedOnlyFarms(farmsLP, tokenMode) <==>
      f in ActiveFarms(farmsLP, tokenMode) && f.userData.Some? && f.userData.value.stakedBalance > 0.0
  {
    FilterOfFilter(farmsLP, ActiveTest(tokenMode), HasStake, StakedTest(tokenMode));
    FilterIsSubseq(ActiveFarms(farmsLP, tokenMode), HasStake);
    FilterIsSubseq(farmsLP, StakedTest(tokenMode));
  }

  // ---------------------------------------------------------------------
  // APY and liquidity of one farm

  /** `farm.tapsPerBlock || 1`: an absent or zero rate counts as 1. */
  function TapsPerBlock(farm: Farm): (r: real)
    ensures r != 0.0
    ensures farm.tapsPerBlock.Some? && farm.tapsPerBlock.value != 0.0 ==> r == farm.tapsPerBlock.value
    ensures farm.tapsPerBlock.None? || farm.tapsPerBlock.value == 0.0 ==> r == 1.0
  {
    if farm.tapsPerBlock.Some? && farm.tapsPerBlock.value != 0.0 then farm.tapsPerBlock.value else 1.0
  }

  /** `new BigNumber(tapsPerBlock || 1).times(poolWeight).div(10 ** 18)`:
      reward tokens per block, the quotient rounded as `div` rounds it. */
  function RewardPerBlock(farm: Farm): real {
    Div(Times(TapsPerBlock(farm), farm.poolWeight), 1.0e18)
  }

  /** `cakeRewardPerBlock.times(BLOCKS_PER_YEAR)` */
  function RewardPerYear(farm: Farm, m: Market): real {
    Times(RewardPerBlock(farm), m.blocksPerYear)
  }

  /** `farm.lpTotalInQuoteToken || 0` */
  function LpTotal(farm: Farm): real {
    match farm.lpTotalInQuoteToken
    case Some(lp) => lp
    case None => 0.0
  }

  /** The pooled value the APY is measured against: the quote-token amount,
      converted with the BNB price for BNB and with the partner-token price
      for BANANA; other quote tokens (CAKE included) are left unconverted. */
  function TotalValue(farm: Farm, m: Market): real {
    match farm.quoteTokenSymbol
    case BNB => Times(LpTotal(farm), m.bnbPrice)
    case BANANA => Times(LpTotal(farm), m.apePrice)
    case _ => LpTotal(farm)
  }

  /** The yearly reward's value (`cakePrice.times(cakeRewardPerYear)`),
      divided by the pooled value when that is positive and left undivided
      otherwise. */
  function Apy(farm: Farm, m: Market): real {
    var gross := Times(m.cakePrice, RewardPerYear(farm, m));
    var totalValue := TotalValue(farm, m);
    if totalValue > 0.0 then Div(gross, totalValue) else gross
  }

  /** For BNB and CAKE quotes the source multiplies a price by
      `lpTotalInQuoteToken`, which is `NaN` when the amount is absent. */
  predicate LiquidityDefined(farm: Farm) {
    (farm.quoteTokenSymbol.BNB? || farm.quoteTokenSymbol.CAKE?) ==> farm.lpTotalInQuoteToken.Some?
  }

  /** The liquidity shown for a farm: the BNB price or the CAKE price times
      the quote-token amount for those quotes, otherwise the amount itself
      (`null` when it is absent). */
  function Liquidity(farm: Farm, m: Market): Option<real>
    requires LiquidityDefined(farm)
  {
    match farm.quoteTokenSymbol
    case BNB => Some(Times(m.bnbPrice, farm.lpTotalInQuoteToken.value))
    case CAKE => Some(Times(m.cakePrice, farm.lpTotalInQuoteToken.value))
    case _ => farm.lpTotalInQuoteToken
  }

  function Derive(farm: Farm, m: Market): FarmWithStakedValue
    requires LiquidityDefined(farm)
  {
    FarmWithStakedValue(farm, Apy(farm, m), Liquidity(farm, m))
  }

  /** The per-farm step of `farmsList`, assignment by assignment. */
  method DeriveFarm(farm: Farm, m: Market) returns (v: FarmWithStakedValue)
    requires LiquidityDefined(farm)
    ensures v == Derive(farm, m)
    ensures v.farm == farm
  {
    var cakeRewardPerBlock := Div(Times(TapsPerBlock(farm), farm.poolWeight), 1.0e18);
    var cakeRewardPerYear := Times(cakeRewardPerBlock, m.blocksPerYear);
    var apy := Times(m.cakePrice, cakeRewardPerYear);
    var totalValue := LpTotal(farm);
    if farm.quoteTokenSymbol == BNB {
      totalValue := Times(totalValue, m.bnbPrice);
    }
    if farm.quoteTokenSymbol == BANANA {
      totalValue := Times(totalValue, m.apePrice);
    }
    if totalValue > 0.0 {
      apy := Div(apy, totalValue);
    }
    var liquidity := farm.lpTotalInQuoteToken;
    if farm.lpTotalInQuoteToken.None? {
      liquidity := None;
    }
    if farm.quoteTokenSymbol == BNB {
      liquidity := Some(Times(m.bnbPrice, farm.lpTotalInQuoteToken.value));
    }
    if farm.quoteTokenSymbol == CAKE {
      liquidity := Some(Times(m.cakePrice, farm.lpTotalInQuoteToken.value));
    }
    v := FarmWithStakedValue(farm, apy, liquidity);
  }

  /** The yearly reward is (tapsPerBlock, or 1 when that is absent or zero)
      times the pool weight over 10^18 times the blocks per year; exactly so
      whenever the quotient over 10^18 needs at most 20 decimal places. */
  lemma RewardPerYearFormula(farm: Farm, m: Market)
    requires Representable(TapsPerBlock(farm) * farm.poolWeight / 1.0e18)
    ensures RewardPerYear(farm, m) == TapsPerBlock(farm) * farm.poolWeight / 1.0e18 * m.blocksPerYear
    ensures (farm.tapsPerBlock.None? || farm.tapsPerBlock == Some(0.0)) ==>
      RewardPerYear(farm, m) == farm.poolWeight / 1.0e18 * m.blocksPerYear
  {
    var product := TapsPerBlock(farm) * farm.poolWeight;
    assert Times(TapsPerBlock(farm), farm.poolWeight) == product;
    RoundHalfUpExact(product / 1.0e18);
    assert RewardPerBlock(farm) == product / 1.0e18;
    if farm.tapsPerBlock.None? || farm.tapsPerBlock == Some(0.0) {
      assert product == farm.poolWeight;
    }
  }

  /** For every farm, whether or not the quotient over 10^18 fits in 20
      places: the reward per block is T·w/10^18 (T the rate, or 1 when it is
      absent or zero; w the pool weight) up to half a unit in the 20th
      place, and the yearly reward is T·w/10^18 times the blocks per year up
      to that half unit times the blocks per year. */
  lemma RewardPerYearBound(farm: Farm, m: Market)
    ensures var exact := TapsPerBlock(farm) * farm.poolWeight / 1.0e18;
      exact - 0.5 / 1.0e20 <= RewardPerBlock(farm) <= exact + 0.5 / 1.0e20
    ensures (farm.tapsPerBlock.None? || farm.tapsPerBlock == Some(0.0)) ==>
      farm.poolWeight / 1.0e18 - 0.5 / 1.0e20 <= RewardPerBlock(farm) <= farm.poolWeight / 1.0e18 + 0.5 / 1.0e20
    ensures var exact, b := TapsPerBlock(farm) * farm.poolWeight / 1.0e18 * m.blocksPerYear, m.blocksPerYear;
      var err := 0.5 / 1.0e20 * (if b >= 0.0 then b else -b);
      exact - err <= RewardPerYear(farm, m) <= exact + err
  {
    var x := TapsPerBlock(farm) * farm.poolWeight / 1.0e18;
    assert Times(TapsPerBlock(farm), farm.poolWeight) == TapsPerBlock(farm) * farm.poolWeight;
    DivSpec(Times(TapsPerBlock(farm), farm.poolWeight), 1.0e18);
    if farm.tapsPerBlock.None? || farm.tapsPerBlock == Some(0.0) {
      assert TapsPerBlock(farm) * farm.poolWeight == farm.poolWeight;
    }
    var y := RewardPerBlock(farm);
    assert RewardPerYear(farm, m) == y * m.blocksPerYear;
    ScaleBounds(x, y, 0.5 / 1.0e20, m.blocksPerYear);
  }

  /** A value within `e` of `x`, scaled by `b`, is within `e·|b|` of `x·b`. */
  lemma ScaleBounds(x: real, y: real, e: real, b: real)
    requires x - e <= y <= x + e
    ensures var err := e * (if b >= 0.0 then b else -b);
      x * b - err <= y * b <= x * b + err
  {
    var d := y - x;
    assert y * b == x * b + d * b;
    if b >= 0.0 {
      assert -e * b <= d * b <= e * b;
    } else {
      assert e * b <= d * b <= -e * b;
    }
  }

  /** For a non-negative T·w, the reward per block, and so the yearly reward,
      is 0 exactly when T·w is below 0.005: the quotient over 10^18 is then
      below half a unit in the 20th place and rounds to 0. */
  lemma RewardVanishes(farm: Farm, m: Market)
    requires TapsPerBlock(farm) * farm.poolWeight >= 0.0
    ensures RewardPerBlock(farm) == 0.0 <==> TapsPerBlock(farm) * farm.poolWeight < 0.005
    ensures TapsPerBlock(farm) * farm.poolWeight < 0.005 ==> RewardPerYear(farm, m) == 0.0
  {
    var p := Times(TapsPerBlock(farm), farm.poolWeight);
    var x := p / 1.0e18;
    assert x * 1.0e20 == p * 100.0;
    var n := (x * 1.0e20 + 0.5).Floor;
    assert RewardPerBlock(farm) == n as real / 1.0e20;
    if p < 0.005 {
      assert n == 0;
    } else {
      assert n >= 1;
    }
  }

  /** With no rate and a pool weight of 0.025, T·w/10^18 is 2.5·10^-20, and
      the reward per block is that quotient rounded up to 3·10^-20. */
  lemma RewardRoundingExample(farm: Farm)
    requires farm.tapsPerBlock.None? && farm.poolWeight == 0.025
    ensures TapsPerBlock(farm) * farm.poolWeight / 1.0e18 == 2.5e-20
    ensures RewardPerBlock(farm) == 3.0e-20
  {
    var x := Times(TapsPerBlock(farm), farm.poolWeight) / 1.0e18;
    assert x == 2.5e-20;
    assert x * 1.0e20 + 0.5 == 3.0;
    assert (x * 1.0e20 + 0.5).Floor == 3;
  }

  /** With no positive pooled value the APY is the yearly reward's value
      itself; with one, the APY times the pooled value is that reward value,
      up to the rounding of the division to 20 places. */
  lemma ApyAgainstPooledValue(farm: Farm, m: Market)
    ensures TotalValue(farm, m) <= 0.0 ==> Apy(farm, m) == m.cakePrice * RewardPerYear(farm, m)
    ensures TotalValue(farm, m) > 0.0 ==>
      var gross, tv := m.cakePrice * RewardPerYear(farm, m), TotalValue(farm, m);
      gross - tv * (0.5 / 1.0e20) <= Apy(farm, m) * tv <= gross + tv * (0.5 / 1.0e20)
  {
    var gross, tv := Times(m.cakePrice, RewardPerYear(farm, m)), TotalValue(farm, m);
    assert gross == m.cakePrice * RewardPerYear(farm, m);
    if tv > 0.0 {
      ApyIsQuotient(farm, m);
      DivTimesDivisor(gross, tv);
    }
  }

  lemma ApyIsQuotient(farm: Farm, m: Market)
    requires TotalValue(farm, m) > 0.0
    ensures Apy(farm, m) == Div(Times(m.cakePrice, RewardPerYear(farm, m)), TotalValue(farm, m))
  {
  }

  /** The pooled value is the quote amount (0 when absent) times the BNB
      price for BNB, times the partner-token price for BANANA, and the
      amount itself for any other quote. */
  lemma TotalValueByQuote(farm: Farm, m: Market)
    ensures farm.lpTotalInQuoteToken.None? ==> TotalValue(farm, m) == 0.0
    ensures farm.quoteTokenSymbol == BNB ==> TotalValue(farm, m) == LpTotal(farm) * m.bnbPrice
    ensures farm.quoteTokenSymbol == BANANA ==> TotalValue(farm, m) == LpTotal(farm) * m.apePrice
    ensures farm.quoteTokenSymbol == CAKE || farm.quoteTokenSymbol == OtherQuote ==>
      TotalValue(farm, m) == LpTotal(farm)
  {
  }

  /** Liquidity is `null` exactly when the quote amount is absent; for a BNB
      quote and for quotes other than CAKE and BANANA it equals the pooled
      value the APY is measured against, while for CAKE it is converted with
      the CAKE price that the pooled value omits, and for BANANA it omits the
      partner-token price that the pooled value applies. */
  lemma LiquidityAgainstPooledValue(farm: Farm, m: Market)
    requires LiquidityDefined(farm)
    ensures Liquidity(farm, m).None? <==> farm.lpTotalInQuoteToken.None?
    ensures farm.lpTotalInQuoteToken.Some? && (farm.quoteTokenSymbol == BNB || farm.quoteTokenSymbol == OtherQuote) ==>
      Liquidity(farm, m).value == TotalValue(farm, m)
    ensures farm.quoteTokenSymbol == CAKE ==>
      Liquidity(farm, m).value == m.cakePrice * TotalValue(farm, m)
    ensures farm.lpTotalInQuoteToken.Some? && farm.quoteTokenSymbol == BANANA ==>
      Liquidity(farm, m).value == LpTotal(farm) && TotalValue(farm, m) == m.apePrice * LpTotal(farm)
  {
    if farm.lpTotalInQuoteToken.Some? {
      var lp := farm.lpTotalInQuoteToken.value;
      assert LpTotal(farm) == lp;
      if farm.quoteTokenSymbol == BNB {
        assert TotalValue(farm, m) == lp * m.bnbPrice;
      } else if farm.quoteTokenSymbol == CAKE {
        assert TotalValue(farm, m) == lp;
      }
    }
  }

  /** With non-negative prices, weights, rates and amounts, neither derived
      value is negative. */
  lemma DerivedValuesNonNegative(farm: Farm, m: Market)
    requires LiquidityDefined(farm)
    requires m.cakePrice >= 0.0 && m.bnbPrice >= 0.0 && m.apePrice >= 0.0 && m.blocksPerYear >= 0.0
    requires farm.poolWeight >= 0.0 && TapsPerBlock(farm) >= 0.0 && LpTotal(farm) >= 0.0
    ensures Apy(farm, m) >= 0.0
    ensures Liquidity(farm, m).Some? ==> Liquidity(farm, m).value >= 0.0
  {
    var perBlock := RewardPerBlock(farm);
    assert perBlock >= 0.0;
    var gross := m.cakePrice * (perBlock * m.blocksPerYear);
    assert gross >= 0.0;
  }

  // ---------------------------------------------------------------------
  // farmsList: derivation and search

  /** `farmsToDisplay.map(...)`: one derived row per farm, in order, each
      carrying its farm unchanged. */
  function DeriveAll(farms: seq<Farm>, m: Market): (r: seq<FarmWithStakedValue>)
    requires forall f :: f in farms ==> LiquidityDefined(f)
    ensures |r| == |farms|
    ensures forall i :: 0 <= i < |farms| ==> r[i].farm == farms[i] && r[i] == Derive(farms[i], m)
  {
    seq(|farms|, i requires 0 <= i < |farms| => Derive(farms[i], m))
  }

  /** The lower-cased pair label contains the lower-cased search text. */
  predicate MatchesQuery(farm: Farm, lowercaseQuery: string) {
    Includes(ToLower(farm.lpSymbol), lowercaseQuery)
  }

  /** The farm's row survives the search `query` (an empty one keeps all). */
  predicate SurvivesQuery(farm: Farm, query: string) {
    query == "" || MatchesQuery(farm, ToLower(query))
  }

  function QueryTest(lowercaseQuery: string): FarmWithStakedValue -> bool {
    (v: FarmWithStakedValue) => MatchesQuery(v.farm, lowercaseQuery)
  }

  /** `if (query) { ... filter(...) }`: an empty query keeps every row. */
  function QueryFilter(rows: seq<FarmWithStakedValue>, query: string): seq<FarmWithStakedValue> {
    if query == "" then rows else Filter(rows, QueryTest(ToLower(query)))
  }

  /** An empty query changes nothing; any other keeps, in their order,
      exactly the rows whose lower-cased pair label contains the lower-cased
      query. The result is never longer than its input. */
  lemma QueryFilterSpec(rows: seq<FarmWithStakedValue>, query: string)
    ensures query == "" ==> QueryFilter(rows, query) == rows
    ensures query != "" ==> forall v :: v in QueryFilter(rows, query) <==>
      v in rows && Includes(ToLower(v.farm.lpSymbol), ToLower(query))
    ensures IsSubseq(QueryFilter(rows, query), rows)
    ensures |QueryFilter(rows, query)| <= |rows|
  {
    if query == "" {
      FilterAll(rows, _ => true);
      FilterIsSubseq(rows, _ => true);
    } else {
      FilterIsSubseq(rows, QueryTest(ToLower(query)));
    }
  }

  /** The search ignores case: queries that lower-case alike, such as a query
      and its upper-cased form, select the same rows. */
  lemma QueryIgnoresCase(rows: seq<FarmWithStakedValue>, q1: string, q2: string)
    requires ToLower(q1) == ToLower(q2)
    ensures QueryFilter(rows, q1) == QueryFilter(rows, q2)
    ensures QueryFilter(rows, ToUpper(q1)) == QueryFilter(rows, q1)
  {
    assert |q1| == |q2|;
    LowerForgetsCase(q1);
  }

  /** `farmsList(farmsToDisplay)`: derive every farm, then apply the search. */
  function FarmsList(farms: seq<Farm>, m: Market, query: string): (r: seq<FarmWithStakedValue>)
    requires forall f :: f in farms ==> LiquidityDefined(f)
    ensures forall v :: v in r ==> v.farm in farms && v == Derive(v.farm, m) && SurvivesQuery(v.farm, query)
  {
    var rows := DeriveAll(farms, m);
    var r := QueryFilter(rows, query);
    assert forall v :: v in r ==> v in rows by {
      QueryFilterSpec(rows, query);
    }
    r
  }

  /** The list keeps the farms' order, has one row per farm when there is no
      query, and otherwise the rows of exactly the farms whose label matches. */
  lemma FarmsListSpec(farms: seq<Farm>, m: Market, query: string)
    requires forall f :: f in farms ==> LiquidityDefined(f)
    ensures IsSubseq(FarmsList(farms, m, query), DeriveAll(farms, m))
    ensures query == "" ==> |FarmsList(farms, m, query)| == |farms|
    ensures forall f :: f in farms && SurvivesQuery(f, query) ==>
      Derive(f, m) in FarmsList(farms, m, query)
  {
    var rows := DeriveAll(farms, m);
    QueryFilterSpec(rows, query);
    forall f | f in farms ensures Derive(f, m) in rows {
      var i :| 0 <= i < |farms| && farms[i] == f;
      assert rows[i] == Derive(f, m);
    }
  }

  // ---------------------------------------------------------------------
  // sortFarms

  function AprKey(v: FarmWithStakedValue): real {
    v.apy
  }

  /** `Number(farm.multiplier.slice(0, -1))`; strings outside the modelled
      number syntax never reach it (see `MultiplierParses`). */
  function MultiplierKey(v: FarmWithStakedValue): real {
    match ParseNumber(DropLast(v.farm.multiplier))
    case Some(x) => x
    case None => 0.0
  }

  /** `farm.userData ? farm.userData.earnings : 0` */
  function EarnedKey(v: FarmWithStakedValue): real {
    match v.farm.userData
    case Some(u) => u.earnings
    case None => 0.0
  }

  /** `Number(farm.liquidity)`, where `Number(null)` is 0. */
  function LiquidityKey(v: FarmWithStakedValue): real {
    match v.liquidity
    case Some(l) => l
    case None => 0.0
  }

  predicate MultiplierParses(farm: Farm) {
    ParseNumber(DropLast(farm.multiplier)).Some?
  }

  predicate IsSortOption(sortOption: string) {
    sortOption == "apr" || sortOption == "multiplier" || sortOption == "earned" || sortOption == "liquidity"
  }

  function SortKey(sortOption: string): FarmWithStakedValue -> real
    requires IsSortOption(sortOption)
  {
    if sortOption == "apr" then AprKey
    else if sortOption == "multiplier" then MultiplierKey
    else if sortOption == "earned" then EarnedKey
    else LiquidityKey
  }

  function SortFarms(rows: seq<FarmWithStakedValue>, sortOption: string): seq<FarmWithStakedValue>
    requires sortOption == "multiplier" ==> forall v :: v in rows ==> MultiplierParses(v.farm)
  {
    if sortOption == "apr" then SortDesc(rows, AprKey)
    else if sortOption == "multiplier" then SortDesc(rows, MultiplierKey)
    else if sortOption == "earned" then SortDesc(rows, EarnedKey)
    else if sortOption == "liquidity" then SortDesc(rows, LiquidityKey)
    else rows
  }

  /** For the four sort keys the result is a permutation of the rows in
      non-increasing key order that keeps the rows of each key value in
      their input order; any other option returns the rows unchanged. */
  lemma SortFarmsSpec(rows: seq<FarmWithStakedValue>, sortOption: string)
    requires sortOption == "multiplier" ==> forall v :: v in rows ==> MultiplierParses(v.farm)
    ensures !IsSortOption(sortOption) ==> SortFarms(rows, sortOption) == rows
    ensures IsSortOption(sortOption) ==>
      var r, key := SortFarms(rows, sortOption), SortKey(sortOption);
      && multiset(r) == multiset(rows)
      && NonIncreasing(r, key)
      && forall k :: WithKey(r, key, k) == WithKey(rows, key, k)
  {
    if IsSortOption(sortOption) {
      var key := SortKey(sortOption);
      assert SortFarms(rows, sortOption) == SortDesc(rows, key);
      SortDescPermutes(rows, key);
      SortDescOrdered(rows, key);
      forall k ensures WithKey(SortDesc(rows, key), key, k) == WithKey(rows, key, k) {
        SortDescStable(rows, key, k);
      }
    }
  }

  /** The sort is the only stable descending order: any ordering of the rows
      by the option's key that keeps ties in input order is what it returns. */
  lemma SortFarmsIsTheStableOrder(rows: seq<FarmWithStakedValue>, sortOption: string, r: seq<FarmWithStakedValue>)
    requires IsSortOption(sortOption)
    requires sortOption == "multiplier" ==> forall v :: v in rows ==> MultiplierParses(v.farm)
    requires NonIncreasing(r, SortKey(sortOption))
    requires forall k :: WithKey(r, SortKey(sortOption), k) == WithKey(rows, SortKey(sortOption), k)
    ensures r == SortFarms(rows, sortOption)
  {
    var key := SortKey(sortOption);
    SortFarmsSpec(rows, sortOption);
    OrderedAndStableIsUnique(r, SortFarms(rows, sortOption), key);
  }

  /** A multiplier label written as `${n}X` sorts by the number `n`. */
  lemma MultiplierKeyOfLabel(v: FarmWithStakedValue, n: nat)
    requires v.farm.multiplier == NatToString(n) + "X"
    ensures MultiplierParses(v.farm)
    ensures MultiplierKey(v) == n as real
  {
    assert DropLast(v.farm.multiplier) == NatToString(n);
    ParseNumberOfNatToString(n);
  }

  /** A multiplier label written with a fraction, such as "0.5X", sorts by
      its decimal value. */
  lemma MultiplierKeyOfDecimalLabel(v: FarmWithStakedValue, w: string, f: string)
    requires AllDigits(w) && AllDigits(f) && (w != [] || f != [])
    requires v.farm.multiplier == w + "." + f + "X"
    ensures MultiplierParses(v.farm)
    ensures MultiplierKey(v) == DecimalValue(w, f)
  {
    assert DropLast(v.farm.multiplier) == w + "." + f;
    ParseNumberOfDecimal(w, f);
  }

  /** Every inactive farm's multiplier is "0X", so sorting the history view
      by multiplier leaves it in its original order. */
  lemma InactiveMultiplierSortKeepsOrder(rows: seq<FarmWithStakedValue>)
    requires forall v :: v in rows ==> v.farm.multiplier == InactiveMultiplier
    ensures forall v :: v in rows ==> MultiplierParses(v.farm)
    ensures SortFarms(rows, "multiplier") == rows
  {
    forall v | v in rows ensures MultiplierParses(v.farm) && MultiplierKey(v) == 0.0 {
      MultiplierKeyOfLabel(v, 0);
    }
    SortDescAllTies(rows, MultiplierKey, 0.0);
  }

  // ---------------------------------------------------------------------
  // The "apr" sort as written

  /** lodash compares two BigNumber `apy` values with `>` and `<`, which
      convert both through `valueOf` to their decimal strings; `valueOf`
      stands for that conversion. The rank orders the strings as `<` does. */
  function AprTextKey(valueOf: real -> string): FarmWithStakedValue -> real {
    (v: FarmWithStakedValue) => StringRank(valueOf(v.apy))
  }

  /** `orderBy(farms, 'apy', 'desc')` as it runs: a stable sort, descending
      in the string order of the decimal texts. */
  function AprSortAsWritten(rows: seq<FarmWithStakedValue>, valueOf: real -> string): seq<FarmWithStakedValue> {
    SortDesc(rows, AprTextKey(valueOf))
  }

  /** The as-written sort puts no row before one whose text is greater as a
      string, keeps the rows, and keeps rows with equal texts in input order. */
  lemma AprSortAsWrittenSpec(rows: seq<FarmWithStakedValue>, valueOf: real -> string)
    ensures multiset(AprSortAsWritten(rows, valueOf)) == multiset(rows)
    ensures forall i, j :: 0 <= i < j < |AprSortAsWritten(rows, valueOf)| ==>
      !JsLess(valueOf(AprSortAsWritten(rows, valueOf)[i].apy), valueOf(AprSortAsWritten(rows, valueOf)[j].apy))
    ensures forall k ::
      WithKey(AprSortAsWritten(rows, valueOf), AprTextKey(valueOf), k) == WithKey(rows, AprTextKey(valueOf), k)
  {
    var key := AprTextKey(valueOf);
    var r := SortDesc(rows, key);
    SortDescPermutes(rows, key);
    SortDescOrdered(rows, key);
    forall k ensures WithKey(r, key, k) == WithKey(rows, key, k) {
      SortDescStable(rows, key, k);
    }
    forall i, j | 0 <= i < j < |r| ensures !JsLess(valueOf(r[i].apy), valueOf(r[j].apy)) {
      StringRankFaithful(valueOf(r[i].apy), valueOf(r[j].apy));
    }
  }

  /** Two rows whose APYs are 12.3 and 9.1, written "12.3" and "9.1": the
      code puts 9.1 first, since "9.1" is the greater string, while the
      numeric order puts 12.3 first. */
  lemma AprSortAsWrittenMisorders(a: FarmWithStakedValue, b: FarmWithStakedValue, valueOf: real -> string)
    requires a.apy == 12.3 && b.apy == 9.1
    requires valueOf(12.3) == "12.3" && valueOf(9.1) == "9.1"
    ensures AprSortAsWritten([a, b], valueOf) == [b, a]
    ensures SortFarms([a, b], "apr") == [a, b]
  {
    var key := AprTextKey(valueOf);
    assert JsLess("12.3", "9.1");
    StringRankOrder("12.3", "9.1");
    assert key(a) < key(b);
    assert [a, b][1..] == [b] && [b][1..] == [];
    assert SortDesc([b], key) == Insert(b, [], key) == [b];
    assert Insert(a, [b], key) == [b] + Insert(a, [], key) == [b, a];
    assert SortDesc([b], AprKey) == Insert(b, [], AprKey) == [b];
  }

  // ---------------------------------------------------------------------
  // Which farms the page shows

  /** `isActive ? (stackedOnly ? stackedOnlyFarms : activeFarms) : inactiveFarms` */
  function DisplayedFarms(farmsLP: seq<Farm>, page: PageState): (r: seq<Farm>)
    ensures forall f :: f in r ==> f in farmsLP && InMode(f, page.tokenMode)
  {
    if !Includes(page.pathname, "history") then
      if page.stackedOnly then StackedOnlyFarms(farmsLP, page.tokenMode) else ActiveFarms(farmsLP, page.tokenMode)
    else InactiveFarms(farmsLP, page.tokenMode)
  }

  /** What the page needs of the farms it derives and sorts: a defined
      liquidity for the BNB and CAKE quotes among the displayed farms, and,
      when sorting by multiplier, multipliers `Number` can read among the
      displayed farms that survive the search. Farms the page does not show
      are not constrained. */
  predicate Renderable(farmsLP: seq<Farm>, page: PageState) {
    && (forall f :: f in DisplayedFarms(farmsLP, page) ==> LiquidityDefined(f))
    && (page.sortOption == "multiplier" ==>
          forall f :: f in DisplayedFarms(farmsLP, page) && SurvivesQuery(f, page.query) ==> MultiplierParses(f))
  }

  /** The rows the page shows, in order. */
  function FarmsView(farmsLP: seq<Farm>, page: PageState, m: Market): seq<FarmWithStakedValue>
    requires Renderable(farmsLP, page)
  {
    SortFarms(FarmsList(DisplayedFarms(farmsLP, page), m, page.query), page.sortOption)
  }

  /** `farmsStaked`, computed as the page computes it: choose the set by
      route and toggle, run `farmsList` on it, then `sortFarms`, with the
      numeric "apr" order of `SortFarms` (`AprSortAsWritten` is the order
      the code produces for "apr"). */
  method FarmsStaked(farmsLP: seq<Farm>, page: PageState, m: Market) returns (farmsStaked: seq<FarmWithStakedValue>)
    requires Renderable(farmsLP, page)
    ensures farmsStaked == FarmsView(farmsLP, page, m)
  {
    var isActive := !Includes(page.pathname, "history");
    farmsStaked := [];
    if isActive {
      farmsStaked := if page.stackedOnly
        then FarmsList(StackedOnlyFarms(farmsLP, page.tokenMode), m, page.query)
        else FarmsList(ActiveFarms(farmsLP, page.tokenMode), m, page.query);
    } else {
      farmsStaked := FarmsList(InactiveFarms(farmsLP, page.tokenMode), m, page.query);
    }
    farmsStaked := SortFarms(farmsStaked, page.sortOption);
  }

  /** On a route containing "history" the page shows the inactive farms
      whatever the toggle says; elsewhere it shows the staked-only farms when
      the toggle is on and all active farms when it is off. */
  lemma ViewSelection(farmsLP: seq<Farm>, page: PageState)
    ensures Includes(page.pathname, "history") ==>
      DisplayedFarms(farmsLP, page) == InactiveFarms(farmsLP, page.tokenMode)
      && DisplayedFarms(farmsLP, page) == DisplayedFarms(farmsLP, page.(stackedOnly := !page.stackedOnly))
    ensures !Includes(page.pathname, "history") && page.stackedOnly ==>
      DisplayedFarms(farmsLP, page) == StackedOnlyFarms(farmsLP, page.tokenMode)
    ensures !Includes(page.pathname, "history") && !page.stackedOnly ==>
      DisplayedFarms(farmsLP, page) == ActiveFarms(farmsLP, page.tokenMode)
  {
  }

  /** Every row shown comes from a farm of the page's mode; it is inactive
      exactly on the history route; it has a positive stake when the toggle
      is on outside that route; its label matches a non-empty query; and its
      values are the derived ones. The rows are a permutation of the
      searched list. */
  lemma ShownRows(farmsLP: seq<Farm>, page: PageState, m: Market)
    requires Renderable(farmsLP, page)
    ensures multiset(FarmsView(farmsLP, page, m))
      == multiset(FarmsList(DisplayedFarms(farmsLP, page), m, page.query))
    ensures forall v :: v in FarmsView(farmsLP, page, m) ==>
      && v.farm in farmsLP
      && InMode(v.farm, page.tokenMode)
      && (v.farm.multiplier == InactiveMultiplier <==> Includes(page.pathname, "history"))
      && (!Includes(page.pathname, "history") && page.stackedOnly ==> HasStake(v.farm))
      && (page.query != "" ==> Includes(ToLower(v.farm.lpSymbol), ToLower(page.query)))
      && v == Derive(v.farm, m)
  {
    var shown := DisplayedFarms(farmsLP, page);
    var listed := FarmsList(shown, m, page.query);
    SortFarmsSpec(listed, page.sortOption);
    PartitionByMultiplier(farmsLP, page.tokenMode);
    StakedOnlySubset(farmsLP, page.tokenMode);
    QueryFilterSpec(DeriveAll(shown, m), page.query);
    var r := FarmsView(farmsLP, page, m);
    forall v | v in r ensures v in listed {
      assert v in multiset(r);
    }
  }

  /** A two-farm example: a "40X" farm and a "0X" farm of the same mode.
      Outside the history route, with the toggle off, only the first is
      shown; on the history route only the second. */
  lemma RouteExample(f1: Farm, f2: Farm, page: PageState)
    requires f1.isTokenOnly == page.tokenMode && f1.multiplier == "40X"
    requires f2.isTokenOnly == page.tokenMode && f2.multiplier == InactiveMultiplier
    requires page.pathname == "/farms" || page.pathname == "/farms/history"
    requires !page.stackedOnly
    ensures page.pathname == "/farms" ==> DisplayedFarms([f1, f2], page) == [f1]
    ensures page.pathname == "/farms/history" ==> DisplayedFarms([f1, f2], page) == [f2]
  {
    assert f1.multiplier != InactiveMultiplier by {
      assert |f1.multiplier| != |InactiveMultiplier|;
    }
    if page.pathname == "/farms" {
      assert !Includes(page.pathname, "history");
      TwoFarmFilter(f1, f2, ActiveTest(page.tokenMode));
    } else {
      assert OccursAt(page.pathname, "history", 7);
      TwoFarmFilter(f1, f2, InactiveTest(page.tokenMode));
    }
  }

  lemma TwoFarmFilter(f1: Farm, f2: Farm, p: Farm -> bool)
    ensures p(f1) && !p(f2) ==> Filter([f1, f2], p) == [f1]
    ensures !p(f1) && p(f2) ==> Filter([f1, f2], p) == [f2]
  {
    assert [f1, f2][1..] == [f2] && [f2][1..] == [];
  }

  /** Sorting rows whose liquidities are 10, 30 and 20 by "liquidity"
      yields the order 30, 20, 10. */
  lemma LiquiditySortExample(a: FarmWithStakedValue, b: FarmWithStakedValue, c: FarmWithStakedValue)
    requires a.liquidity == Some(10.0) && b.liquidity == Some(30.0) && c.liquidity == Some(20.0)
    ensures SortFarms([a, b, c], "liquidity") == [b, c, a]
  {
    var rows := [a, b, c];
    assert rows[1..] == [b, c] && rows[1..][1..] == [c] && rows[1..][1..][1..] == [];
    assert [c][1..] == [];
    assert SortDesc([c], LiquidityKey) == Insert(c, [], LiquidityKey) == [c];
    assert SortDesc([b, c], LiquidityKey) == [b, c];
    assert Insert(a, [c], LiquidityKey) == [c, a];
  }

  // ---------------------------------------------------------------------
  // Row label

  /** `farm.lpSymbol.toUpperCase().replace('PANCAKE', '')` */
  function LpLabel(lpSymbol: string): string {
    ReplaceFirst(ToUpper(lpSymbol), "PANCAKE", "")
  }

  /** The label is the upper-cased symbol with its first "PANCAKE" removed,
      or the upper-cased symbol itself when it has none. */
  lemma LpLabelSpec(lpSymbol: string)
    ensures !Includes(ToUpper(lpSymbol), "PANCAKE") ==> LpLabel(lpSymbol) == ToUpper(lpSymbol)
    ensures Includes(ToUpper(lpSymbol), "PANCAKE") ==> |LpLabel(lpSymbol)| == |lpSymbol| - 7
    ensures Includes(ToUpper(lpSymbol), "PANCAKE") ==>
      exists i :: IsFirstOccurrence(ToUpper(lpSymbol), "PANCAKE", i)
        && LpLabel(lpSymbol) == ToUpper(lpSymbol)[..i] + ToUpper(lpSymbol)[i + 7..]
  {
    var up := ToUpper(lpSymbol);
    assert |up| == |lpSymbol|;
    if Includes(up, "PANCAKE") {
      var i := IndexOf(up, "PANCAKE");
      assert IsFirstOccurrence(up, "PANCAKE", i);
      assert up[..i] + "" == up[..i];
      assert LpLabel(lpSymbol) == up[..i] + up[i + 7..];
    }
  }
}
