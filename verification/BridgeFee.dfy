/**
  The bridge fee: a ratio in units of 10^-8, rounded down to the decimals a token keeps, and the two tier
  selectors, one for amounts that still include the fee, one for amounts net of it. A row is what
  `GetBridgeFee` found, or None. The not-included selector compares exactly, in the smallest unit.
 */
module BridgeFees {
  import opened Text
  import Decimal

  const RATIO_UNIT: nat := 100000000

  /** 10^(decimal - keepDecimal); like big.Int.Exp it is 1 for a negative exponent. */
  function Scale(decimal: int, keepDecimal: int): (s: nat)
    ensures s > 0
  {
    if decimal <= keepDecimal then 1 else Decimal.Pow10(decimal - keepDecimal)
  }

  /** The fee, as the largest multiple of `scale` that is at most value * ratio / 10^8. */
  function Fee(value: int, ratio: int, scale: nat): int
    requires scale > 0
  {
    if ratio > 0 then scale * (value * ratio / (RATIO_UNIT * scale)) else 0
  }

  function Net(value: int, ratio: int, scale: nat): int
    requires scale > 0
  {
    value - Fee(value, ratio, scale)
  }

  lemma Nested(q: int, b: nat, r: nat, a: nat, s: nat)
    requires r < b && s < a
    ensures (q * b + r) * a + s == q * (a * b) + (r * a + s)
    ensures 0 <= r * a + s < a * b
  {
    assert r * a <= (b - 1) * a;
  }

  lemma DivDiv(x: int, a: nat, b: nat)
    requires a > 0 && b > 0
    ensures a * b > 0 && (x / a) / b == x / (a * b)
  {
    var y, s := x / a, x % a;
    var q, r := y / b, y % b;
    Nested(q, b, r, a, s);
    Decimal.DivUnique(x, a * b, q, r * a + s);
  }

  lemma RoundDown(y: int, s: nat)
    requires s > 0
    ensures y - y % s == s * (y / s)
  {}

  /** BridgeFeeManager.FromUiString: the amount that remains after the fee. */
  method FromUiString(amount: int, bridgeFee: int, decimal: int, keepDecimal: int) returns (value: int)
    ensures value == Net(amount, bridgeFee, Scale(decimal, keepDecimal))
  {
    value := 0;
    value := value + amount;
    if bridgeFee > 0 {
      var bridgeFeeAmount := value * bridgeFee;
      bridgeFeeAmount := bridgeFeeAmount / RATIO_UNIT;
      var scale := Scale(decimal, keepDecimal);
      var modAmount := bridgeFeeAmount % scale;
      RoundDown(bridgeFeeAmount, scale);
      DivDiv(amount * bridgeFee, RATIO_UNIT, scale);
      bridgeFeeAmount := bridgeFeeAmount - modAmount;
      value := value - bridgeFeeAmount;
    }
  }

  // ---- The fee function ----

  lemma FloorBounds(n: int, d: nat)
    requires d > 0
    ensures (n / d) * d <= n < (n / d + 1) * d
  {}

  lemma FloorMonotone(m: int, n: int, d: nat)
    requires d > 0 && m <= n
    ensures m / d <= n / d
  {
    var gap := m / d - n / d;
    if gap > 0 {
      assert gap * d >= d;
      FloorBounds(m, d);
      FloorBounds(n, d);
    }
  }

  lemma MulMonotone(a: int, b: int, s: int)
    requires a <= b && s >= 0
    ensures a * s <= b * s && s * a <= s * b
  {}

  lemma Shuffle(s: int, q: int, u: int)
    ensures (s * q) * u == q * (u * s)
    ensures (s * q + s) * u == (q + 1) * (u * s)
  {}

  /** The fee is a multiple of the scale, at most value * ratio / 10^8, and within one scale of it. */
  lemma FeeIsRoundedShare(value: int, ratio: int, scale: nat)
    requires scale > 0
    ensures var fee := Fee(value, ratio, scale);
      if ratio > 0 then fee % scale == 0 && fee * 100000000 <= value * ratio < (fee + scale) * 100000000
      else fee == 0
  {
    if ratio > 0 { PositiveShare(value, ratio, scale); }
  }

  lemma PositiveShare(value: int, ratio: int, scale: nat)
    requires scale > 0 && ratio > 0
    ensures var fee := Fee(value, ratio, scale);
      fee % scale == 0 && fee * RATIO_UNIT <= value * ratio < (fee + scale) * RATIO_UNIT
  {
    var q := value * ratio / (RATIO_UNIT * scale);
    FloorBounds(value * ratio, RATIO_UNIT * scale);
    Shuffle(scale, q, RATIO_UNIT);
    Decimal.DivUnique(scale * q, scale, q, 0);
  }

  lemma FeeMonotone(v: int, w: int, r: int, t: int, scale: nat)
    requires scale > 0 && 0 <= v <= w && r <= t
    ensures Fee(v, r, scale) <= Fee(w, t, scale)
    ensures Fee(v, r, scale) >= 0
  {
    var d := RATIO_UNIT * scale;
    if t > 0 {
      var r' := if r > 0 then r else 0;
      MulMonotone(r', t, v);
      MulMonotone(v, w, t);
      MulMonotone(0, v, r');
      FloorMonotone(0, v * r', d);
      FloorMonotone(v * r', w * t, d);
      MulMonotone(0, v * r' / d, scale);
      MulMonotone(v * r' / d, w * t / d, scale);
    }
  }

  lemma FloorOfSum(m: int, n: int, d: nat)
    requires d > 0
    ensures m / d + n / d <= (m + n) / d <= m / d + n / d + 1
  {
    var k := m / d + n / d;
    var r := m % d + n % d;
    assert m + n == k * d + r;
    if r < d {
      Decimal.DivUnique(m + n, d, k, r);
    } else {
      assert m + n == (k + 1) * d + (r - d);
      Decimal.DivUnique(m + n, d, k + 1, r - d);
    }
  }

  /** Splitting an amount never raises the fee, and lowers it by at most one scale. */
  lemma FeeOfSplit(a: int, b: int, ratio: int, scale: nat)
    requires scale > 0
    ensures var parts := Fee(a, ratio, scale) + Fee(b, ratio, scale);
      parts <= Fee(a + b, ratio, scale) <= parts + scale
  {
    if ratio > 0 {
      var d := RATIO_UNIT * scale;
      var k := a * ratio / d + b * ratio / d;
      var whole := (a + b) * ratio / d;
      assert (a + b) * ratio == a * ratio + b * ratio;
      FloorOfSum(a * ratio, b * ratio, d);
      MulMonotone(k, whole, scale);
      MulMonotone(whole, k + 1, scale);
      assert scale * k == scale * (a * ratio / d) + scale * (b * ratio / d);
      assert scale * (k + 1) == scale * k + scale;
    }
  }

  /** The scale is the smallest unit that the kept decimals can show; a token keeping all its decimals has scale 1. */
  lemma ScaleIsKeptUnit(decimal: nat, keepDecimal: int)
    ensures keepDecimal >= decimal ==> Scale(decimal, keepDecimal) == 1
    ensures 0 <= keepDecimal <= decimal
      ==> Scale(decimal, keepDecimal) * Decimal.Pow10(keepDecimal) == Decimal.Pow10(decimal)
    ensures keepDecimal < 0 ==> Scale(decimal, keepDecimal) == Decimal.Pow10(decimal) * Decimal.Pow10(-keepDecimal)
  {
    if 0 <= keepDecimal <= decimal {
      Decimal.Pow10Add(decimal - keepDecimal, keepDecimal);
    } else if keepDecimal < 0 {
      Decimal.Pow10Add(decimal, -keepDecimal);
    }
  }

  // ---- Tier selection ----

  /** Ratios and the first three thresholds, in the smallest unit. Levels are counted from 0. */
  datatype Tiers = Tiers(ratios: seq<int>, bounds: seq<int>)
  {
    predicate Valid() { |ratios| == 4 && |bounds| == 3 }
  }

  /** The level charged on an amount that includes the fee. */
  function IncludedLevel(t: Tiers, value: int, scale: nat): (i: nat)
    requires t.Valid() && scale > 0
    ensures i < 4
  {
    if t.bounds[0] > Net(value, t.ratios[0], scale) then 0
    else if t.bounds[1] > Net(value, t.ratios[1], scale) then 1
    else if t.bounds[2] > Net(value, t.ratios[2], scale) then 2
    else 3
  }

  /** The level charged on top of a net amount. */
  function NotIncludedLevel(t: Tiers, value: int): (i: nat)
    requires t.Valid()
    ensures i < 4
  {
    if value < t.bounds[0] then 0 else if value < t.bounds[1] then 1 else if value < t.bounds[2] then 2 else 3
  }

  /** The included level is the first one whose threshold exceeds what its own ratio leaves; the last has none. */
  lemma IncludedLevelIsFirst(t: Tiers, value: int, scale: nat, i: nat)
    requires t.Valid() && scale > 0 && i < 4
    ensures IncludedLevel(t, value, scale) == i <==>
      && (forall j :: 0 <= j < i ==> t.bounds[j] + Fee(value, t.ratios[j], scale) <= value)
      && (i < 3 ==> t.bounds[i] + Fee(value, t.ratios[i], scale) > value)
  {}

  /** The not-included level is the first one whose threshold exceeds the amount. */
  lemma NotIncludedLevelIsFirst(t: Tiers, value: int, i: nat)
    requires t.Valid() && i < 4
    ensures NotIncludedLevel(t, value) == i <==>
      (forall j :: 0 <= j < i ==> t.bounds[j] <= value) && (i < 3 ==> t.bounds[i] > value)
  {}

  /** Quoting the net amount of `value` charges the level that `value` itself was charged. */
  predicate SelectorsAgree(t: Tiers, value: int, scale: nat)
    requires t.Valid() && scale > 0
  {
    var i := IncludedLevel(t, value, scale);
    NotIncludedLevel(t, Net(value, t.ratios[i], scale)) == i
  }

  /** Ratios never rise from level to level; a ratio that is not positive charges nothing. */
  predicate NonIncreasing(ratios: seq<int>) {
    forall i, j :: 0 <= i < j < |ratios| ==> ratios[j] <= ratios[i] || ratios[j] <= 0
  }

  lemma FeeOfLaterLevel(value: int, earlier: int, later: int, scale: nat)
    requires scale > 0 && value >= 0 && (later <= earlier || later <= 0)
    ensures Net(value, earlier, scale) <= Net(value, later, scale)
  {
    if later <= earlier {
      FeeMonotone(value, value, later, earlier, scale);
    } else {
      FeeMonotone(value, value, 0, if earlier > 0 then earlier else 0, scale);
    }
  }

  lemma SelectorsAgreeWhenSorted(t: Tiers, value: int, scale: nat)
    requires t.Valid() && scale > 0 && value >= 0 && NonIncreasing(t.ratios)
    ensures SelectorsAgree(t, value, scale)
  {
    var i := IncludedLevel(t, value, scale);
    forall j | 0 <= j < i ensures Net(value, t.ratios[j], scale) <= Net(value, t.ratios[i], scale) {
      FeeOfLaterLevel(value, t.ratios[j], t.ratios[i], scale);
    }
  }

  function FullUnits(scale: nat): nat { RATIO_UNIT * scale }

  lemma FeeOfFullUnits(ratio: int, scale: nat)
    requires scale > 0
    ensures Fee(FullUnits(scale), ratio, scale) == if ratio > 0 then scale * ratio else 0
  {
    var d := RATIO_UNIT * scale;
    Decimal.DivUnique(d * ratio, d, ratio, 0);
    assert d * ratio == ratio * d;
  }

  /** Thresholds on which a rise from ratios[i] to ratios[j] makes the selectors disagree. */
  function Between(ratios: seq<int>, j: nat, scale: nat): Tiers
    requires |ratios| == 4 && j < 4 && scale > 0
  {
    var v := FullUnits(scale);
    Tiers(ratios, seq(3, k requires 0 <= k < 3 =>
      if k < j then Net(v, ratios[k], scale) else Net(v, ratios[j], scale) + 1))
  }

  lemma RisingRatiosDisagree(ratios: seq<int>, i: nat, j: nat, scale: nat)
    requires |ratios| == 4 && scale > 0 && i < j < 4 && ratios[j] > ratios[i] && ratios[j] > 0
    ensures !SelectorsAgree(Between(ratios, j, scale), FullUnits(scale), scale)
  {
    var t, v := Between(ratios, j, scale), FullUnits(scale);
    FeeOfFullUnits(ratios[i], scale);
    FeeOfFullUnits(ratios[j], scale);
    MulMonotone(if ratios[i] > 0 then ratios[i] + 1 else 1, ratios[j], scale);
    assert Net(v, ratios[j], scale) < Net(v, ratios[i], scale);
    assert IncludedLevel(t, v, scale) == j;
    assert t.bounds[i] == Net(v, ratios[i], scale);
  }

  /** The selectors agree for all thresholds and amounts exactly when no later level charges a higher ratio. */
  lemma SelectorsAgreeExactly(ratios: seq<int>, scale: nat)
    requires |ratios| == 4 && scale > 0
    ensures NonIncreasing(ratios) <==>
      forall bounds: seq<int>, value: nat | |bounds| == 3 :: SelectorsAgree(Tiers(ratios, bounds), value, scale)
  {
    if NonIncreasing(ratios) {
      forall bounds: seq<int>, value: nat | |bounds| == 3 ensures SelectorsAgree(Tiers(ratios, bounds), value, scale) {
        SelectorsAgreeWhenSorted(Tiers(ratios, bounds), value, scale);
      }
    } else {
      var i, j :| 0 <= i < j < |ratios| && ratios[j] > ratios[i] && ratios[j] > 0;
      RisingRatiosDisagree(ratios, i, j, scale);
      var t := Between(ratios, j, scale);
      assert t == Tiers(ratios, t.bounds);
    }
  }

  // ---- Rows ----

  datatype BridgeFee = BridgeFee(
    ratioLv1: int, ratioLv2: int, ratioLv3: int, ratioLv4: int, keepDecimal: int,
    amountLv1Str: string, amountLv2Str: string, amountLv3Str: string)

  function KeepDecimal(row: BridgeFee, decimal: int): int {
    if row.keepDecimal < decimal then row.keepDecimal else decimal
  }

  /** A row's scale in terms of its own keepDecimal. */
  lemma RowScale(row: BridgeFee, decimal: nat)
    ensures var scale := Scale(decimal, KeepDecimal(row, decimal));
      if row.keepDecimal >= decimal then scale == 1
      else if row.keepDecimal >= 0 then scale * Decimal.Pow10(row.keepDecimal) == Decimal.Pow10(decimal)
      else scale == Decimal.Pow10(decimal) * Decimal.Pow10(-row.keepDecimal)
  {
    ScaleIsKeptUnit(decimal, row.keepDecimal);
  }

  /** The thresholds in the smallest unit; None when one of the three does not parse. */
  function TiersOf(row: BridgeFee, decimal: int): (r: Option<Tiers>)
    ensures r.Some? ==> r.value.Valid()
  {
    match (Decimal.FromUiString(row.amountLv1Str, decimal), Decimal.FromUiString(row.amountLv2Str, decimal),
           Decimal.FromUiString(row.amountLv3Str, decimal))
    case (Some(a), Some(b), Some(c)) => Some(Tiers([row.ratioLv1, row.ratioLv2, row.ratioLv3, row.ratioLv4], [a, b, c]))
    case _ => None
  }

  /** A row whose thresholds were printed from amounts has those thresholds and its own ratios, level by level. */
  lemma TiersOfPrinted(row: BridgeFee, a: int, b: int, c: int, decimal: nat)
    requires row.amountLv1Str == Decimal.WeiToUI(a, decimal)
    requires row.amountLv2Str == Decimal.WeiToUI(b, decimal)
    requires row.amountLv3Str == Decimal.WeiToUI(c, decimal)
    ensures TiersOf(row, decimal)
      == Some(Tiers([row.ratioLv1, row.ratioLv2, row.ratioLv3, row.ratioLv4], [a, b, c]))
  {
    Decimal.PrintThenParse(a, decimal);
    Decimal.PrintThenParse(b, decimal);
    Decimal.PrintThenParse(c, decimal);
  }

  method GetIncludedBridgeFeeBigInt(bridgeFee: Option<BridgeFee>, value: int, decimal: int)
    returns (ratio: int, ok: bool)
    ensures ok == (bridgeFee.Some? && TiersOf(bridgeFee.value, decimal).Some?)
    ensures !ok ==> ratio == 0
    ensures ok ==>
      var t := TiersOf(bridgeFee.value, decimal).value;
      ratio == t.ratios[IncludedLevel(t, value, Scale(decimal, KeepDecimal(bridgeFee.value, decimal)))]
  {
    if bridgeFee.None? { return 0, false; }
    var row := bridgeFee.value;
    var keepDecimal := KeepDecimal(row, decimal);
    var amountLv1 := Decimal.FromUiString(row.amountLv1Str, decimal);
    if amountLv1.None? { return 0, false; }
    var amountLv2 := Decimal.FromUiString(row.amountLv2Str, decimal);
    if amountLv2.None? { return 0, false; }
    var amountLv3 := Decimal.FromUiString(row.amountLv3Str, decimal);
    if amountLv3.None? { return 0, false; }
    var net1 := FromUiString(value, row.ratioLv1, decimal, keepDecimal);
    if amountLv1.value > net1 { return row.ratioLv1, true; }
    var net2 := FromUiString(value, row.ratioLv2, decimal, keepDecimal);
    if amountLv2.value > net2 { return row.ratioLv2, true; }
    var net3 := FromUiString(value, row.ratioLv3, decimal, keepDecimal);
    if amountLv3.value > net3 { return row.ratioLv3, true; }
    return row.ratioLv4, true;
  }

  /** Ratio and fee of an amount that includes the fee; with sorted ratios the rest is quoted at the same ratio. */
  method GetBridgeFeeDetail(bridgeFee: Option<BridgeFee>, value: int, decimal: int) returns (ratio: int, fee: int)
    ensures bridgeFee.None? || TiersOf(bridgeFee.value, decimal).None? ==> (ratio, fee) == (0, 0)
    ensures bridgeFee.Some? && TiersOf(bridgeFee.value, decimal).Some? ==>
      var t := TiersOf(bridgeFee.value, decimal).value;
      && ratio == t.ratios[IncludedLevel(t, value, Scale(decimal, KeepDecimal(bridgeFee.value, decimal)))]
      && fee == Fee(value, ratio, Scale(decimal, KeepDecimal(bridgeFee.value, decimal)))
      && (value >= 0 && NonIncreasing(t.ratios) ==> ratio == t.ratios[NotIncludedLevel(t, value - fee)])
  {
    if bridgeFee.None? { return 0, 0; }
    var ok;
    ratio, ok := GetIncludedBridgeFeeBigInt(bridgeFee, value, decimal);
    if !ok { return 0, 0; }
    var keepDecimal := KeepDecimal(bridgeFee.value, decimal);
    var net := FromUiString(value, ratio, decimal, keepDecimal);
    fee := value - net;
    ghost var t := TiersOf(bridgeFee.value, decimal).value;
    if value >= 0 && NonIncreasing(t.ratios) {
      SelectorsAgreeWhenSorted(t, value, Scale(decimal, keepDecimal));
    }
  }
}
