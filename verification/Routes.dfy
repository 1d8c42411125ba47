/**
  The aggregator's route choice. Routes and fee segments are the accepted rows of their tables, in the
  order the queries deliver them; UI amounts are decimal literals read exactly (`Decimal.ParseRat`).

  `residue` stands for the value `big.Rat.SetString` leaves behind when a fixed fee does not parse, which
  the source uses without checking and the library does not define.
 */
module Routes {
  import opened Text
  import Decimal

  datatype RouteConfig = RouteConfig(
    id: int, aggregateID: int, fromChainID: int, toChainID: int, fromTokenSymbol: string,
    minAmount: string, maxAmount: string)

  datatype FeeSegment = FeeSegment(
    id: int, routeID: int, minAmountUI: string, maxAmountUI: string,
    owltoFeeFixedUI: string, owltoFeeRateBps: int, protocolFeeRateBps: int)

  datatype FeeResult = FeeResult(
    bestAggregator: int, channelFee: int, owltoFee: int, totalGasFee: int, protocolFee: int,
    channelFeeUI: string, owltoFeeUI: string, totalGasFeeUI: string, protocolFeeRateBps: int)

  datatype BestRoute = BestRoute(aggregator: int, route: RouteConfig, segment: FeeSegment, fee: FeeResult)

  datatype Error = NoRoutes | InvalidAmount | NoMatchingSegment
  datatype Result<+T> = Ok(value: T) | Err(error: Error)

  /** big.Rat.SetString */
  function Rat(s: string): Option<real> {
    match Decimal.ParseRat(s)
    case None => None
    case Some(l) => Some(l.Real())
  }

  // ---- Ranges ----

  predicate Bounded(s: string) { s != "" && s != "0" }

  /** isAmountInRouteRange: min and max are inclusive; an unreadable bound excludes the route. */
  predicate InRange(route: RouteConfig, amount: real) {
    && (Bounded(route.minAmount) ==> Rat(route.minAmount).Some? && amount >= Rat(route.minAmount).value)
    && (Bounded(route.maxAmount) ==> Rat(route.maxAmount).Some? && amount <= Rat(route.maxAmount).value)
  }

  method IsAmountInRouteRange(amount: real, route: RouteConfig) returns (r: bool)
    ensures r == InRange(route, amount)
  {
    if route.minAmount != "" && route.minAmount != "0" {
      var minRat := Rat(route.minAmount);
      if minRat.None? { return false; }
      if amount < minRat.value { return false; }
    }
    if route.maxAmount != "" && route.maxAmount != "0" {
      var maxRat := Rat(route.maxAmount);
      if maxRat.None? { return false; }
      if amount > maxRat.value { return false; }
    }
    return true;
  }

  /** A half-open interval [min, max), or [min, infinity). */
  datatype Interval = Interval(min: real, max: Option<real>)
  {
    predicate Contains(x: real) { min <= x && (max.Some? ==> x < max.value) }
  }

  /** The interval of a segment; None when one of its bounds does not parse. */
  function IntervalOf(seg: FeeSegment): Option<Interval> {
    var min := if seg.minAmountUI == "" then Some(0.0) else Rat(seg.minAmountUI);
    if min.None? then None
    else if !Bounded(seg.maxAmountUI) then Some(Interval(min.value, None))
    else if Rat(seg.maxAmountUI).None? then None
    else Some(Interval(min.value, Rat(seg.maxAmountUI)))
  }

  predicate Covers(seg: FeeSegment, amount: real) {
    IntervalOf(seg).Some? && IntervalOf(seg).value.Contains(amount)
  }

  /** The first segment of the list that covers the amount. */
  function SegmentFor(segments: seq<FeeSegment>, amount: real): (r: Option<FeeSegment>)
    ensures r.Some? ==> r.value in segments && Covers(r.value, amount)
    ensures r.None? <==> forall s :: s in segments ==> !Covers(s, amount)
  {
    if segments == [] then None
    else if Covers(segments[0], amount) then Some(segments[0])
    else SegmentFor(segments[1..], amount)
  }

  /** findMatchingSegment over one route's segments. */
  method FindMatchingSegment(segments: seq<FeeSegment>, amount: real) returns (r: Option<FeeSegment>)
    ensures r == SegmentFor(segments, amount)
  {
    for i := 0 to |segments|
      invariant SegmentFor(segments, amount) == SegmentFor(segments[i..], amount)
    {
      var seg := segments[i];
      assert segments[i..][1..] == segments[i + 1..];
      var minRat := Some(0.0);
      if seg.minAmountUI != "" {
        minRat := Rat(seg.minAmountUI);
        if minRat.None? { continue; }
      }
      var maxRat := Some(0.0);
      var unlimited := seg.maxAmountUI == "" || seg.maxAmountUI == "0";
      if !unlimited {
        maxRat := Rat(seg.maxAmountUI);
        if maxRat.None? { continue; }
      }
      if amount >= minRat.value {
        if unlimited || amount < maxRat.value {
          return Some(seg);
        }
      }
    }
    return None;
  }

  /** Index i covers the amount, no earlier one does. */
  predicate FirstCover(segments: seq<FeeSegment>, amount: real, i: nat) {
    i < |segments| && Covers(segments[i], amount) && forall j :: 0 <= j < i ==> !Covers(segments[j], amount)
  }

  /** When segments overlap the earliest one counts. */
  lemma {:induction false} SegmentIsFirst(segments: seq<FeeSegment>, amount: real, i: nat)
    requires FirstCover(segments, amount, i)
    ensures SegmentFor(segments, amount) == Some(segments[i])
  {
    if i > 0 {
      assert !Covers(segments[0], amount);
      assert forall j :: 0 < j < |segments| ==> segments[j] == segments[1..][j - 1];
      assert FirstCover(segments[1..], amount, i - 1) by {
        forall j | 0 <= j < i - 1 ensures !Covers(segments[1..][j], amount) { assert !Covers(segments[j + 1], amount); }
      }
      SegmentIsFirst(segments[1..], amount, i - 1);
    }
  }

  // ---- Bounds printed from amounts in the smallest unit ----

  function UI(wei: int, decimals: nat): real { wei as real / Decimal.Pow10(decimals) as real }

  lemma UIOrder(a: int, b: int, decimals: nat)
    ensures UI(a, decimals) <= UI(b, decimals) <==> a <= b
    ensures UI(a, decimals) < UI(b, decimals) <==> a < b
  {
    RealDivOrder(a as real, b as real, Decimal.Pow10(decimals) as real);
  }

  lemma RealDivOrder(a: real, b: real, p: real)
    requires p > 0.0
    ensures a / p <= b / p <==> a <= b
    ensures a / p < b / p <==> a < b
  {
    assert (a / p) * p == a && (b / p) * p == b;
    if a / p <= b / p { assert (a / p) * p <= (b / p) * p; }
    if a / p > b / p { assert (a / p) * p > (b / p) * p; }
    if a / p < b / p { assert (a / p) * p < (b / p) * p; }
  }

  /** A printed bound is one that the code takes as a bound exactly when it is not zero. */
  lemma BoundPrinted(wei: int, decimals: nat)
    ensures var s := Decimal.WeiToUI(wei, decimals);
      Rat(s) == Some(UI(wei, decimals)) && (Bounded(s) <==> wei != 0) && s != ""
  {
    Decimal.ReadPrinted(wei, decimals);
    if wei != 0 {
      assert Decimal.ParseRat(Decimal.WeiToUI(wei, decimals)) == Some(Decimal.Literal(wei, decimals));
      assert Decimal.ParseRat("0") == Some(Decimal.Literal(0, 0)) by { Decimal.ReadZero(); }
      assert Decimal.ParseRat("") == None;
    }
  }

  /** A route with printed bounds takes the amounts from its minimum to its maximum, both included; zero is no bound. */
  lemma RangeInUnits(route: RouteConfig, low: int, high: int, wei: int, decimals: nat)
    requires route.minAmount == Decimal.WeiToUI(low, decimals) && route.maxAmount == Decimal.WeiToUI(high, decimals)
    ensures InRange(route, UI(wei, decimals)) <==> (low == 0 || low <= wei) && (high == 0 || wei <= high)
  {
    BoundPrinted(low, decimals);
    BoundPrinted(high, decimals);
    UIOrder(low, wei, decimals);
    UIOrder(wei, high, decimals);
  }

  /** A segment with printed bounds takes the amounts from its minimum up to, not including, its maximum. */
  lemma SegmentInUnits(seg: FeeSegment, low: int, high: int, wei: int, decimals: nat)
    requires seg.minAmountUI == Decimal.WeiToUI(low, decimals) && seg.maxAmountUI == Decimal.WeiToUI(high, decimals)
    ensures Covers(seg, UI(wei, decimals)) <==> low <= wei && (high == 0 || wei < high)
  {
    BoundPrinted(low, decimals);
    BoundPrinted(high, decimals);
    UIOrder(low, wei, decimals);
    UIOrder(wei, high, decimals);
  }

  /** An unreadable bound keeps a route and a segment from taking any amount; empty bounds are no bounds. */
  lemma OddBounds(route: RouteConfig, seg: FeeSegment, amount: real)
    ensures route.minAmount == route.maxAmount == "" ==> InRange(route, amount)
    ensures seg.minAmountUI == seg.maxAmountUI == "" ==> (Covers(seg, amount) <==> 0.0 <= amount)
    ensures route.minAmount != "" && Rat(route.minAmount).None? ==> !InRange(route, amount)
    ensures route.maxAmount != "" && Rat(route.maxAmount).None? ==> !InRange(route, amount)
    ensures seg.minAmountUI != "" && Rat(seg.minAmountUI).None? ==> !Covers(seg, amount)
    ensures seg.maxAmountUI != "" && Rat(seg.maxAmountUI).None? ==> !Covers(seg, amount)
  {
    Decimal.ReadZero();
  }

  // ---- Segments that tile [m, infinity) ----

  /** In this order each interval is non-empty and starts where the one before ends; the last is unlimited. */
  predicate Tiles(segments: seq<FeeSegment>, m: real) {
    && segments != []
    && IntervalOf(segments[0]).Some?
    && IntervalOf(segments[0]).value.min == m
    && match IntervalOf(segments[0]).value.max
       case None => |segments| == 1
       case Some(next) => m < next && Tiles(segments[1..], next)
  }

  lemma {:induction false} TilesCoverOnce(segments: seq<FeeSegment>, m: real, amount: real)
    requires Tiles(segments, m)
    ensures amount < m ==> forall i :: 0 <= i < |segments| ==> !Covers(segments[i], amount)
    ensures amount >= m ==> exists i :: 0 <= i < |segments| && CoversOnlyAt(segments, amount, i)
  {
    var rest := segments[1..];
    assert forall i :: 0 < i < |segments| ==> segments[i] == rest[i - 1];
    match IntervalOf(segments[0]).value.max
    case None =>
      assert amount >= m ==> CoversOnlyAt(segments, amount, 0);
    case Some(next) =>
      TilesCoverOnce(rest, next, amount);
      if amount >= next {
        var i :| 0 <= i < |rest| && CoversOnlyAt(rest, amount, i);
        assert CoversOnlyAt(segments, amount, i + 1);
      } else if amount >= m {
        assert CoversOnlyAt(segments, amount, 0);
      }
  }

  predicate CoversOnlyAt(segments: seq<FeeSegment>, amount: real, i: nat) {
    forall j :: 0 <= j < |segments| ==> (Covers(segments[j], amount) <==> j == i)
  }

  /**
    If some order of a route's segments tiles [m, infinity), every amount from m up lies in exactly one of
    them, which the search finds in whatever order the list is; amounts below m lie in none.
   */
  lemma TilingDecidesSegment(order: seq<FeeSegment>, list: seq<FeeSegment>, m: real, amount: real)
    requires Tiles(order, m) && multiset(list) == multiset(order)
    ensures amount < m ==> SegmentFor(list, amount) == None
    ensures amount >= m ==>
      exists i :: 0 <= i < |order| && CoversOnlyAt(order, amount, i) && SegmentFor(list, amount) == Some(order[i])
  {
    TilesCoverOnce(order, m, amount);
    assert forall s :: s in list <==> s in multiset(list);
    assert forall s :: s in order <==> s in multiset(order);
    if amount >= m {
      var i :| 0 <= i < |order| && CoversOnlyAt(order, amount, i);
      assert order[i] in list;
      var found := SegmentFor(list, amount).value;
      assert found in order;
    }
  }

  // ---- Fees ----

  /** amount * bps / 10000, nothing for a rate that is not positive. */
  function RateFee(amountWei: int, bps: int): int {
    if bps > 0 then amountWei * bps / 10000 else 0
  }

  /** The fixed amount in UI units. */
  function FixedUI(fixed: string, residue: string -> real): real {
    if !Bounded(fixed) then 0.0
    else if Rat(fixed).Some? then Rat(fixed).value
    else residue(fixed)
  }

  /** "" and "0" mean no fixed fee, other texts are read; an unreadable one is what the library leaves. */
  lemma FixedUIRead(fixed: string, residue: string -> real)
    ensures fixed == "" || fixed == "0" ==> FixedUI(fixed, residue) == 0.0
    ensures Rat(fixed).Some? ==> FixedUI(fixed, residue) == Rat(fixed).value
    ensures fixed != "" && Rat(fixed).None? ==> FixedUI(fixed, residue) == residue(fixed)
  {
    Decimal.ReadZero();
    assert Decimal.ParseRat("") == None;
  }

  lemma NoFixedFee(fixed: string, decimals: nat, residue: string -> real)
    requires fixed == "" || fixed == "0"
    ensures Decimal.FloorToWei(FixedUI(fixed, residue), decimals) == 0
  {
    Decimal.FloorToWeiBounds(0.0, decimals, 0, 0.0);
  }

  function FixedFee(seg: FeeSegment, decimals: nat, residue: string -> real): int {
    Decimal.FloorToWei(FixedUI(seg.owltoFeeFixedUI, residue), decimals)
  }

  /** The total fee of a segment: the fixed fee counts twice, once as the channel fee. */
  function TotalFee(amount: real, seg: FeeSegment, decimals: nat, residue: string -> real): int {
    2 * FixedFee(seg, decimals, residue) + RateFee(Decimal.FloorToWei(amount, decimals), seg.owltoFeeRateBps)
  }

  /** The fee is bps ten-thousandths of the amount rounded down, nothing for a rate that is not positive. */
  predicate IsShare(fee: int, amountWei: int, bps: int) {
    if bps > 0 then 10000 * fee <= amountWei * bps < 10000 * fee + 10000 else fee == 0
  }

  /**
    The fees of a segment, in the smallest unit, where `Decimal.FloorToWei` rounds an amount down
    (`Decimal.FloorToWeiBounds`): the channel fee is the fixed fee; the Owlto fee adds its share of the amount to
    that once more; the protocol fee is its own share; the total is channel plus Owlto fee.
   */
  predicate FeesOf(r: FeeResult, amount: real, seg: FeeSegment, decimals: nat, residue: string -> real) {
    var amountWei := Decimal.FloorToWei(amount, decimals);
    && r.channelFee == Decimal.FloorToWei(FixedUI(seg.owltoFeeFixedUI, residue), decimals)
    && IsShare(r.owltoFee - r.channelFee, amountWei, seg.owltoFeeRateBps)
    && IsShare(r.protocolFee, amountWei, seg.protocolFeeRateBps)
    && r.totalGasFee == r.channelFee + r.owltoFee
    && r.protocolFeeRateBps == seg.protocolFeeRateBps
  }

  lemma ShareIsRateFee(fee: int, amountWei: int, bps: int)
    ensures IsShare(fee, amountWei, bps) <==> fee == RateFee(amountWei, bps)
  {}

  /** The bounds in `FeesOf` leave one answer. */
  lemma FeesAreDetermined(r: FeeResult, amount: real, seg: FeeSegment, decimals: nat, residue: string -> real)
    ensures FeesOf(r, amount, seg, decimals, residue) <==>
      && r.channelFee == FixedFee(seg, decimals, residue)
      && r.totalGasFee == TotalFee(amount, seg, decimals, residue) == r.channelFee + r.owltoFee
      && r.protocolFee == RateFee(Decimal.FloorToWei(amount, decimals), seg.protocolFeeRateBps)
      && r.protocolFeeRateBps == seg.protocolFeeRateBps
  {
    var amountWei := Decimal.FloorToWei(amount, decimals);
    ShareIsRateFee(r.owltoFee - r.channelFee, amountWei, seg.owltoFeeRateBps);
    ShareIsRateFee(r.protocolFee, amountWei, seg.protocolFeeRateBps);
  }

  /** The three UI texts parse back to the amounts they were printed from. */
  predicate TextsRead(r: FeeResult, decimals: nat) {
    && Decimal.FromUiString(r.totalGasFeeUI, decimals) == Some(r.totalGasFee)
    && Decimal.FromUiString(r.owltoFeeUI, decimals) == Some(r.owltoFee)
    && Decimal.FromUiString(r.channelFeeUI, decimals) == Some(r.channelFee)
  }

  lemma PrintedTextsRead(r: FeeResult, decimals: nat)
    requires r.totalGasFeeUI == Decimal.WeiToUI(r.totalGasFee, decimals)
    requires r.owltoFeeUI == Decimal.WeiToUI(r.owltoFee, decimals)
    requires r.channelFeeUI == Decimal.WeiToUI(r.channelFee, decimals)
    ensures TextsRead(r, decimals)
  {
    Decimal.PrintThenParse(r.totalGasFee, decimals);
    Decimal.PrintThenParse(r.owltoFee, decimals);
    Decimal.PrintThenParse(r.channelFee, decimals);
  }

  /** calculateFee */
  method CalculateFee(amount: real, seg: FeeSegment, decimals: nat, residue: string -> real, aggregator: int)
    returns (r: FeeResult)
    ensures r.bestAggregator == aggregator && FeesOf(r, amount, seg, decimals, residue)
    ensures TextsRead(r, decimals)
  {
    var amtWei := Decimal.FloorToWei(amount, decimals);
    var owltoFixedUI := 0.0;
    if seg.owltoFeeFixedUI != "" && seg.owltoFeeFixedUI != "0" {
      var parsed := Rat(seg.owltoFeeFixedUI);
      owltoFixedUI := if parsed.Some? then parsed.value else residue(seg.owltoFeeFixedUI);
    }
    var owltoFixedWei := Decimal.FloorToWei(owltoFixedUI, decimals);
    var owltoRateWei := 0;
    if seg.owltoFeeRateBps > 0 {
      owltoRateWei := amtWei * seg.owltoFeeRateBps;
      owltoRateWei := owltoRateWei / 10000;
    }
    var owltoFee := owltoFixedWei + owltoRateWei;
    var channelFee := owltoFixedWei;
    var total := channelFee + owltoFee;
    var protocolFee := 0;
    if seg.protocolFeeRateBps > 0 {
      protocolFee := amtWei * seg.protocolFeeRateBps;
      protocolFee := protocolFee / 10000;
    }
    r := FeeResult(aggregator, channelFee, owltoFee, total, protocolFee,
      Decimal.WeiToUI(channelFee, decimals), Decimal.WeiToUI(owltoFee, decimals), Decimal.WeiToUI(total, decimals),
      seg.protocolFeeRateBps);
    PrintedTextsRead(r, decimals);
    FeesAreDetermined(r, amount, seg, decimals, residue);
  }

  // ---- Rows and indexes ----

  function OfPair(from: int, to: int): RouteConfig -> bool {
    (r: RouteConfig) => r.fromChainID == from && r.toChainID == to
  }

  /** The route is for the pair and, letter case and the space around the query aside, for the token. */
  function OfPairAndSymbol(from: int, to: int, symbol: string): RouteConfig -> bool {
    (r: RouteConfig) => r.fromChainID == from && r.toChainID == to
      && ToUpper(r.fromTokenSymbol) == ToUpper(TrimSpace(symbol))
  }

  predicate Serves(r: RouteConfig, from: int, to: int, symbol: string) {
    r.fromChainID == from && r.toChainID == to && ToUpper(r.fromTokenSymbol) == ToUpper(TrimSpace(symbol))
  }

  function OfRoute(id: int): FeeSegment -> bool {
    (s: FeeSegment) => s.routeID == id
  }

  lemma {:induction false} SelectTwice(rows: seq<RouteConfig>, from: int, to: int, symbol: string)
    ensures Select(Select(rows, OfPair(from, to)), OfPairAndSymbol(from, to, symbol))
      == Select(rows, OfPairAndSymbol(from, to, symbol))
  {
    if rows != [] {
      var n := |rows| - 1;
      SelectTwice(rows[..n], from, to, symbol);
      var s := Select(rows[..n], OfPair(from, to));
      if OfPair(from, to)(rows[n]) {
        SelectNext(s + [rows[n]], |s|, OfPairAndSymbol(from, to, symbol));
        assert (s + [rows[n]])[..|s|] == s && (s + [rows[n]])[..|s| + 1] == s + [rows[n]];
      } else {
        assert s + [] == s;
      }
    }
  }

  type PairIndex = map<int, map<int, seq<RouteConfig>>>

  function RoutesAt(idx: PairIndex, from: int, to: int): seq<RouteConfig> {
    if from in idx && to in idx[from] then idx[from][to] else []
  }

  function SegmentsAt(idx: map<int, seq<FeeSegment>>, id: int): seq<FeeSegment> {
    if id in idx then idx[id] else []
  }

  /** loadRouteConfigs: append every row to its chain pair's list. */
  method IndexRoutes(rows: seq<RouteConfig>) returns (idx: PairIndex)
    ensures forall from, to :: RoutesAt(idx, from, to) == Select(rows, OfPair(from, to))
  {
    idx := map[];
    for n := 0 to |rows|
      invariant forall from, to :: RoutesAt(idx, from, to) == Select(rows[..n], OfPair(from, to))
    {
      var r := rows[n];
      if r.fromChainID !in idx {
        idx := idx[r.fromChainID := map[]];
      }
      var dest := idx[r.fromChainID];
      var old' := if r.toChainID in dest then dest[r.toChainID] else [];
      idx := idx[r.fromChainID := dest[r.toChainID := old' + [r]]];
      forall from, to ensures RoutesAt(idx, from, to) == Select(rows[..n + 1], OfPair(from, to)) {
        SelectNext(rows, n, OfPair(from, to));
      }
    }
    assert rows[..|rows|] == rows;
  }

  /** loadFeeSegments: append every row to its route's list. */
  method IndexSegments(rows: seq<FeeSegment>) returns (idx: map<int, seq<FeeSegment>>)
    ensures forall id :: SegmentsAt(idx, id) == Select(rows, OfRoute(id))
  {
    idx := map[];
    for n := 0 to |rows|
      invariant forall id :: SegmentsAt(idx, id) == Select(rows[..n], OfRoute(id))
    {
      var seg := rows[n];
      idx := idx[seg.routeID := SegmentsAt(idx, seg.routeID) + [seg]];
      forall id ensures SegmentsAt(idx, id) == Select(rows[..n + 1], OfRoute(id)) {
        SelectNext(rows, n, OfRoute(id));
      }
    }
    assert rows[..|rows|] == rows;
  }

  // ---- The best route ----

  /** The segment a route would be charged by, when it takes the amount at all. */
  function Offer(route: RouteConfig, segments: seq<FeeSegment>, amount: real): Option<FeeSegment> {
    if InRange(route, amount) then SegmentFor(Select(segments, OfRoute(route.id)), amount) else None
  }

  /** The fee a route offers; None when it offers nothing. */
  function Price(route: RouteConfig, segments: seq<FeeSegment>, amount: real, decimals: nat, residue: string -> real)
    : Option<int>
  {
    match Offer(route, segments, amount)
    case None => None
    case Some(seg) => Some(TotalFee(amount, seg, decimals, residue))
  }

  /** Index i has a price, no price is lower, and every earlier price is higher. */
  predicate Cheapest(prices: seq<Option<int>>, i: nat) {
    && i < |prices| && prices[i].Some?
    && (forall j :: 0 <= j < |prices| && prices[j].Some? ==> prices[i].value <= prices[j].value)
    && (forall j :: 0 <= j < i && prices[j].Some? ==> prices[i].value < prices[j].value)
  }

  function Prices(routes: seq<RouteConfig>, segments: seq<FeeSegment>, amount: real, decimals: nat,
      residue: string -> real) : (p: seq<Option<int>>)
    ensures |p| == |routes|
  {
    seq(|routes|, i requires 0 <= i < |routes| => Price(routes[i], segments, amount, decimals, residue))
  }

  /** A printed amount is valid exactly when it is positive. */
  lemma ValidAmountPrinted(wei: int, decimals: nat)
    ensures ValidAmount(Decimal.WeiToUI(wei, decimals)) <==> wei > 0
  {
    Decimal.ReadPrinted(wei, decimals);
    UISign(wei, decimals);
  }

  lemma UISign(wei: int, decimals: nat)
    ensures UI(wei, decimals) > 0.0 <==> wei > 0
  {
    UIOrder(0, wei, decimals);
    assert UI(0, decimals) == 0.0;
  }

  /** A plain positive amount. */
  predicate ValidAmount(amountUI: string) {
    Rat(amountUI).Some? && Rat(amountUI).value > 0.0
  }

  class AggregatorManager {
    var routesByChainPair: PairIndex
    var feeSegmentsByRouteID: map<int, seq<FeeSegment>>
    ghost var routeRows: seq<RouteConfig>
    ghost var segmentRows: seq<FeeSegment>

    ghost predicate Valid()
      reads this
    {
      && (forall from, to :: RoutesAt(routesByChainPair, from, to) == Select(routeRows, OfPair(from, to)))
      && (forall id :: SegmentsAt(feeSegmentsByRouteID, id) == Select(segmentRows, OfRoute(id)))
    }

    constructor ()
      ensures Valid() && routeRows == [] && segmentRows == []
    {
      routesByChainPair, feeSegmentsByRouteID, routeRows, segmentRows := map[], map[], [], [];
    }

    /**
      LoadAll; `configs` says whether the queries before the routes succeed, None is a query that fails. A failing
      query ends the load: what was loaded before it stays, what comes after it keeps its old rows.
     */
    method LoadAll(configs: bool, routes: Option<seq<RouteConfig>>, segments: Option<seq<FeeSegment>>)
      returns (ok: bool)
      requires Valid()
      modifies this
      ensures Valid()
      ensures ok <==> configs && routes.Some? && segments.Some?
      ensures routeRows == if configs && routes.Some? then routes.value else old(routeRows)
      ensures segmentRows == if ok then segments.value else old(segmentRows)
    {
      if !configs || routes.None? { return false; }
      var byPair := IndexRoutes(routes.value);
      routesByChainPair, routeRows := byPair, routes.value;
      if segments.None? { return false; }
      var byRoute := IndexSegments(segments.value);
      feeSegmentsByRouteID, segmentRows := byRoute, segments.value;
      return true;
    }

    /** Exactly the loaded routes of the pair and token, in load order. */
    method GetRoutesByChainPairAndSymbol(from: int, to: int, tokenSymbol: string) returns (routes: seq<RouteConfig>)
      requires Valid()
      ensures routes == Select(routeRows, OfPairAndSymbol(from, to, tokenSymbol))
      ensures forall r :: r in routes <==> r in routeRows && Serves(r, from, to, tokenSymbol)
    {
      routes := [];
      var tokenUpper := ToUpper(TrimSpace(tokenSymbol));
      var rs := RoutesAt(routesByChainPair, from, to);
      for n := 0 to |rs|
        invariant routes == Select(rs[..n], OfPairAndSymbol(from, to, tokenSymbol))
      {
        SelectNext(rs, n, OfPairAndSymbol(from, to, tokenSymbol));
        SelectMembers(routeRows, OfPair(from, to), rs[n]);
        if ToUpper(rs[n].fromTokenSymbol) == tokenUpper {
          routes := routes + [rs[n]];
        }
      }
      assert rs[..|rs|] == rs;
      SelectTwice(routeRows, from, to, tokenSymbol);
      forall r ensures r in routes <==> r in routeRows && Serves(r, from, to, tokenSymbol) {
        SelectMembers(routeRows, OfPairAndSymbol(from, to, tokenSymbol), r);
      }
    }

    method FindMatching(routeID: int, amount: real) returns (r: Option<FeeSegment>)
      requires Valid()
      ensures r == SegmentFor(Select(segmentRows, OfRoute(routeID)), amount)
    {
      assert SegmentsAt(feeSegmentsByRouteID, routeID) == Select(segmentRows, OfRoute(routeID));
      r := FindMatchingSegment(SegmentsAt(feeSegmentsByRouteID, routeID), amount);
    }

    /**
      The earliest loaded of the cheapest routes for the pair and token, among those whose range holds the
      amount and that have a segment for it; an error exactly when there is none.
     */
    method FindBestRoute(from: int, to: int, tokenSymbol: string, amountUI: string, decimals: nat,
        residue: string -> real)
      returns (r: Result<BestRoute>)
      requires Valid()
      ensures var routes := Select(routeRows, OfPairAndSymbol(from, to, tokenSymbol));
        match r
        case Err(NoRoutes) => routes == []
        case Err(InvalidAmount) => routes != [] && !ValidAmount(amountUI)
        case Err(NoMatchingSegment) =>
          && routes != [] && ValidAmount(amountUI)
          && forall i :: 0 <= i < |routes| ==> Offer(routes[i], segmentRows, Rat(amountUI).value) == None
        case Ok(best) =>
          && ValidAmount(amountUI)
          && IsBest(best, routes, segmentRows, Rat(amountUI).value, decimals, residue)
      ensures match r
        case Err(NoRoutes) => forall row :: row in routeRows ==> !Serves(row, from, to, tokenSymbol)
        case Err(_) => exists row :: row in routeRows && Serves(row, from, to, tokenSymbol)
        case Ok(best) => best.route in routeRows && Serves(best.route, from, to, tokenSymbol)
    {
      var routes := GetRoutesByChainPairAndSymbol(from, to, tokenSymbol);
      if |routes| == 0 { return Err(NoRoutes); }
      assert routes[0] in routes;
      var amt := Rat(amountUI);
      if amt.None? || amt.value <= 0.0 { return Err(InvalidAmount); }
      var best := Search(routes, amt.value, decimals, residue);
      if best.None? { return Err(NoMatchingSegment); }
      return Ok(best.value);
    }

    /** One route's turn in the loop of FindBestRoute: what it offers, if anything. */
    method Quote(route: RouteConfig, amount: real, decimals: nat, residue: string -> real)
      returns (offer: Option<BestRoute>)
      requires Valid()
      ensures match offer
        case None => Offer(route, segmentRows, amount) == None
        case Some(b) => IsOffer(b, route, segmentRows, amount, decimals, residue)
      ensures FeeOf(offer) == Price(route, segmentRows, amount, decimals, residue)
    {
      var inRange := IsAmountInRouteRange(amount, route);
      if !inRange { return None; }
      var segment := FindMatching(route.id, amount);
      if segment.None? { return None; }
      SelectMembers(segmentRows, OfRoute(route.id), segment.value);
      var fee := CalculateFee(amount, segment.value, decimals, residue, route.aggregateID);
      FeesAreDetermined(fee, amount, segment.value, decimals, residue);
      return Some(BestRoute(route.aggregateID, route, segment.value, fee));
    }

    /** The loop of FindBestRoute. */
    method Search(routes: seq<RouteConfig>, amount: real, decimals: nat, residue: string -> real)
      returns (best: Option<BestRoute>)
      requires Valid()
      ensures best == None ==> forall i :: 0 <= i < |routes| ==> Offer(routes[i], segmentRows, amount) == None
      ensures best.Some? ==> IsBest(best.value, routes, segmentRows, amount, decimals, residue)
    {
      best := None;
      ghost var at := 0;
      ghost var prices := Prices(routes, segmentRows, amount, decimals, residue);
      for n := 0 to |routes|
        invariant Leads(prices, n, FeeOf(best), at)
        invariant best.Some? ==> at < n && IsOffer(best.value, routes[at], segmentRows, amount, decimals, residue)
      {
        var offer := Quote(routes[n], amount, decimals, residue);
        LeadsNext(prices, n, FeeOf(best), at);
        if offer.Some? && (best == None || offer.value.fee.totalGasFee < best.value.fee.totalGasFee) {
          best := offer;
          at := n;
        }
      }
      if best.Some? {
        LeaderIsBest(best.value, routes, segmentRows, amount, decimals, residue, at);
      } else {
        NoPriceNoOffer(routes, segmentRows, amount, decimals, residue);
      }
    }
  }

  lemma LeaderIsCheapest(prices: seq<Option<int>>, fee: int, at: nat)
    requires Leads(prices, |prices|, Some(fee), at)
    ensures Cheapest(prices, at) && prices[at] == Some(fee)
  {
    assert prices[..|prices|] == prices;
  }

  lemma LeaderIsBest(best: BestRoute, routes: seq<RouteConfig>, segments: seq<FeeSegment>, amount: real, decimals: nat,
      residue: string -> real, at: nat)
    requires var prices := Prices(routes, segments, amount, decimals, residue);
      Leads(prices, |prices|, Some(best.fee.totalGasFee), at)
    requires at < |routes| && IsOffer(best, routes[at], segments, amount, decimals, residue)
    ensures IsBest(best, routes, segments, amount, decimals, residue)
  {
    var prices := Prices(routes, segments, amount, decimals, residue);
    LeaderIsCheapest(prices, best.fee.totalGasFee, at);
    forall j: nat, other | j < |routes| && IsOffer(other, routes[j], segments, amount, decimals, residue)
      ensures best.fee.totalGasFee <= other.fee.totalGasFee
      ensures j < at ==> best.fee.totalGasFee < other.fee.totalGasFee
    {
      OfferHasPrice(other, routes[j], segments, amount, decimals, residue);
      assert prices[j] == Some(other.fee.totalGasFee);
    }
    assert IsBestAt(best, routes, segments, amount, decimals, residue, at);
  }

  lemma OfferHasPrice(b: BestRoute, route: RouteConfig, segments: seq<FeeSegment>, amount: real, decimals: nat,
      residue: string -> real)
    requires IsOffer(b, route, segments, amount, decimals, residue)
    ensures Price(route, segments, amount, decimals, residue) == Some(b.fee.totalGasFee)
  {
    FeesAreDetermined(b.fee, amount, b.segment, decimals, residue);
  }

  function FeeOf(offer: Option<BestRoute>): Option<int> {
    match offer case None => None case Some(b) => Some(b.fee.totalGasFee)
  }

  lemma NoPriceNoOffer(routes: seq<RouteConfig>, segments: seq<FeeSegment>, amount: real, decimals: nat,
      residue: string -> real)
    ensures forall i | 0 <= i < |routes| && Prices(routes, segments, amount, decimals, residue)[i] == None ::
      Offer(routes[i], segments, amount) == None
  {}

  /** Among the first n prices: none, or the cheapest at index `at`. */
  predicate Leads(prices: seq<Option<int>>, n: nat, fee: Option<int>, at: nat)
    requires n <= |prices|
  {
    if fee.None? then forall i :: 0 <= i < n ==> prices[i] == None
    else at < n && Cheapest(prices[..n], at) && prices[at] == fee
  }

  /** The running minimum: a strictly lower price takes over, anything else leaves the holder cheapest. */
  lemma LeadsNext(prices: seq<Option<int>>, n: nat, fee: Option<int>, at: nat)
    requires n < |prices| && Leads(prices, n, fee, at)
    ensures if prices[n].Some? && (fee.None? || prices[n].value < fee.value) then Leads(prices, n + 1, prices[n], n)
      else Leads(prices, n + 1, fee, at)
  {}

  /** `best` is what the route offers: its segment, its aggregator, and the fee of that segment. */
  predicate IsOffer(best: BestRoute, route: RouteConfig, segments: seq<FeeSegment>, amount: real, decimals: nat,
      residue: string -> real)
  {
    && best.route == route && best.aggregator == best.fee.bestAggregator == route.aggregateID
    && Offer(route, segments, amount) == Some(best.segment)
    && best.segment in segments && best.segment.routeID == route.id
    && FeesOf(best.fee, amount, best.segment, decimals, residue) && TextsRead(best.fee, decimals)
  }

  /**
    `best` is an offer of one of the routes; no offer of any route is cheaper, and those of earlier routes
    are dearer.
   */
  ghost predicate IsBest(best: BestRoute, routes: seq<RouteConfig>, segments: seq<FeeSegment>, amount: real,
      decimals: nat, residue: string -> real)
  {
    exists i: nat :: i < |routes| && IsBestAt(best, routes, segments, amount, decimals, residue, i)
  }

  ghost predicate IsBestAt(best: BestRoute, routes: seq<RouteConfig>, segments: seq<FeeSegment>, amount: real,
      decimals: nat, residue: string -> real, i: nat)
    requires i < |routes|
  {
    && IsOffer(best, routes[i], segments, amount, decimals, residue)
    && forall j: nat, other | j < |routes| && IsOffer(other, routes[j], segments, amount, decimals, residue) ::
        && best.fee.totalGasFee <= other.fee.totalGasFee
        && (j < i ==> best.fee.totalGasFee < other.fee.totalGasFee)
  }
}
