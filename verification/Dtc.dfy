/**
  The destination transaction cost: a tiered flat fee, charged on an amount that includes it or quoted on
  top of one that does not. A row is what `GetDtc` found, or None. Levels are counted from 0.
 */
module Dtcs {
  import opened Text
  import Decimal

  datatype Dtc = Dtc(
    dtcLv1Str: string, dtcLv2Str: string, dtcLv3Str: string, dtcLv4Str: string,
    amountLv1Str: string, amountLv2Str: string, amountLv3Str: string)

  function OrZero(o: Option<int>): int {
    match o case Some(n) => n case None => 0
  }

  /** A literal in the smallest unit; an empty or unreadable one counts as nothing. */
  function Units(s: string, decimals: int): int {
    if s == "" then 0 else OrZero(Decimal.FromUiString(s, decimals))
  }

  /** DtcManager.FromUiString */
  method FromUiString(amount: string, dtc: string, decimals: int) returns (value: int)
    ensures value == Units(amount, decimals) + Units(dtc, decimals)
  {
    value := 0;
    if amount != "" {
      var amountValue := Decimal.FromUiString(amount, decimals);
      if amountValue.Some? {
        value := value + amountValue.value;
      }
    }
    if dtc != "" {
      var dtcValue := Decimal.FromUiString(dtc, decimals);
      if dtcValue.Some? {
        value := value + dtcValue.value;
      }
    }
  }

  /** Four fees and the three amounts that bound the first three levels. */
  datatype Tiers = Tiers(fees: seq<int>, amounts: seq<int>)
  {
    predicate Valid() { |fees| == 4 && |amounts| == 3 }
  }

  function TiersOf(row: Dtc, decimals: int): (t: Tiers)
    ensures t.Valid()
  {
    Tiers([Units(row.dtcLv1Str, decimals), Units(row.dtcLv2Str, decimals),
           Units(row.dtcLv3Str, decimals), Units(row.dtcLv4Str, decimals)],
          [Units(row.amountLv1Str, decimals), Units(row.amountLv2Str, decimals), Units(row.amountLv3Str, decimals)])
  }

  function IncludedLevel(t: Tiers, value: int): (i: nat)
    requires t.Valid()
    ensures i < 4
  {
    if value <= t.amounts[0] + t.fees[0] then 0
    else if value <= t.amounts[1] + t.fees[1] then 1
    else if value <= t.amounts[2] + t.fees[2] then 2
    else 3
  }

  function ToIncludeLevel(t: Tiers, value: int): (i: nat)
    requires t.Valid()
    ensures i < 4
  {
    if value <= t.amounts[0] then 0 else if value <= t.amounts[1] then 1 else if value <= t.amounts[2] then 2 else 3
  }

  /** The fee contained in an amount. */
  function Included(t: Tiers, value: int): int
    requires t.Valid()
  {
    t.fees[IncludedLevel(t, value)]
  }

  /** The fee to add to an amount. */
  function ToInclude(t: Tiers, value: int): int
    requires t.Valid()
  {
    t.fees[ToIncludeLevel(t, value)]
  }

  predicate NonDecreasing(fees: seq<int>) {
    forall i, j :: 0 <= i < j < |fees| ==> fees[i] <= fees[j]
  }

  /** The included level is the first one whose bound plus fee the amount does not exceed; the last has no bound. */
  lemma IncludedLevelIsFirst(t: Tiers, value: int, i: nat)
    requires t.Valid() && i < 4
    ensures IncludedLevel(t, value) == i <==>
      && (forall j :: 0 <= j < i ==> value - t.fees[j] > t.amounts[j])
      && (i < 3 ==> value - t.fees[i] <= t.amounts[i])
  {}

  /** The level to include is the first one whose bound the amount does not exceed. */
  lemma ToIncludeLevelIsFirst(t: Tiers, value: int, i: nat)
    requires t.Valid() && i < 4
    ensures ToIncludeLevel(t, value) == i <==>
      (forall j :: 0 <= j < i ==> value > t.amounts[j]) && (i < 3 ==> value <= t.amounts[i])
  {}

  lemma UnitsPrinted(wei: int, decimals: nat)
    ensures Units(Decimal.WeiToUI(wei, decimals), decimals) == wei
  {
    Decimal.PrintThenParse(wei, decimals);
    Decimal.ReadPrinted(wei, decimals);
    assert Decimal.ParseRat("") == None;
  }

  /** A row whose texts were printed from amounts has those amounts as its fees and bounds, level by level. */
  lemma TiersOfPrinted(row: Dtc, t: Tiers, decimals: nat)
    requires t.Valid()
    requires row.dtcLv1Str == Decimal.WeiToUI(t.fees[0], decimals)
    requires row.dtcLv2Str == Decimal.WeiToUI(t.fees[1], decimals)
    requires row.dtcLv3Str == Decimal.WeiToUI(t.fees[2], decimals)
    requires row.dtcLv4Str == Decimal.WeiToUI(t.fees[3], decimals)
    requires row.amountLv1Str == Decimal.WeiToUI(t.amounts[0], decimals)
    requires row.amountLv2Str == Decimal.WeiToUI(t.amounts[1], decimals)
    requires row.amountLv3Str == Decimal.WeiToUI(t.amounts[2], decimals)
    ensures TiersOf(row, decimals) == t
  {
    forall i | 0 <= i < 4 ensures Units(Decimal.WeiToUI(t.fees[i], decimals), decimals) == t.fees[i] {
      UnitsPrinted(t.fees[i], decimals);
    }
    forall i | 0 <= i < 3 ensures Units(Decimal.WeiToUI(t.amounts[i], decimals), decimals) == t.amounts[i] {
      UnitsPrinted(t.amounts[i], decimals);
    }
  }

  // ---- The two paths against each other ----

  /** Adding the fee and reading it back gives the same fee. */
  predicate AddThenRead(t: Tiers, x: int)
    requires t.Valid()
  {
    Included(t, x + ToInclude(t, x)) == ToInclude(t, x)
  }

  /** Taking the contained fee out and quoting it again gives the same fee. */
  predicate ReadThenAdd(t: Tiers, v: int)
    requires t.Valid()
  {
    ToInclude(t, v - Included(t, v)) == Included(t, v)
  }

  lemma AddThenReadWhenSorted(t: Tiers, x: int)
    requires t.Valid() && NonDecreasing(t.fees)
    ensures AddThenRead(t, x)
  {}

  /** Amounts on which a drop from fees[i] to fees[j] makes the fee read back differ from the fee added. */
  function Bounds(fees: seq<int>, i: nat, j: nat): seq<int>
    requires |fees| == 4 && i < j < 4
  {
    seq(3, k requires 0 <= k < 3 => if k == i then 0 else if k < j then 0 - Decimal.Abs(fees[j] - fees[k]) else 1)
  }

  lemma FallingFeesDisagree(fees: seq<int>, i: nat, j: nat)
    requires |fees| == 4 && i < j < 4 && fees[j] < fees[i]
    ensures !AddThenRead(Tiers(fees, Bounds(fees, i, j)), 1)
  {}

  /** The fee added is the fee read back, for all amounts and bounds, exactly when the fees never fall. */
  lemma AddThenReadExactly(fees: seq<int>)
    requires |fees| == 4
    ensures NonDecreasing(fees) <==>
      forall amounts: seq<int>, x: int | |amounts| == 3 :: AddThenRead(Tiers(fees, amounts), x)
  {
    if NonDecreasing(fees) {
      forall amounts: seq<int>, x: int | |amounts| == 3 ensures AddThenRead(Tiers(fees, amounts), x) {
        AddThenReadWhenSorted(Tiers(fees, amounts), x);
      }
    } else {
      var i, j :| 0 <= i < j < |fees| && fees[i] > fees[j];
      FallingFeesDisagree(fees, i, j);
    }
  }

  /** The net of v is above the bound of every level below the one charged. */
  predicate AboveLowerBounds(t: Tiers, v: int)
    requires t.Valid()
  {
    var i := IncludedLevel(t, v);
    forall j :: 0 <= j < i ==> v - t.fees[i] > t.amounts[j]
  }

  /**
    The converse holds exactly outside the gaps that the fee steps leave: v is some x plus the fee
    quoted for x exactly when its net clears the lower bounds of its level, and exactly then does the
    net amount get the same quote.
   */
  lemma ReadThenAddExactly(t: Tiers, v: int)
    requires t.Valid() && NonDecreasing(t.fees)
    ensures ReadThenAdd(t, v) <==> AboveLowerBounds(t, v)
    ensures ReadThenAdd(t, v) <==> exists x :: x + ToInclude(t, x) == v
  {}

  // ---- Queries ----

  method GetIncludedDtcBigInt(dtc: Option<Dtc>, value: int, decimals: int) returns (fee: int, ok: bool)
    ensures ok == dtc.Some?
    ensures ok ==> fee == Included(TiersOf(dtc.value, decimals), value)
  {
    if dtc.None? { return 0, false; }
    var row := dtc.value;
    var bound := FromUiString(row.amountLv1Str, row.dtcLv1Str, decimals);
    if value <= bound {
      fee := FromUiString("", row.dtcLv1Str, decimals);
      return fee, true;
    }
    bound := FromUiString(row.amountLv2Str, row.dtcLv2Str, decimals);
    if value <= bound {
      fee := FromUiString("", row.dtcLv2Str, decimals);
      return fee, true;
    }
    bound := FromUiString(row.amountLv3Str, row.dtcLv3Str, decimals);
    if value <= bound {
      fee := FromUiString("", row.dtcLv3Str, decimals);
      return fee, true;
    }
    fee := FromUiString("", row.dtcLv4Str, decimals);
    return fee, true;
  }

  method GetDtcToIncludeBigInt(dtc: Option<Dtc>, value: int, decimals: int) returns (fee: int, ok: bool)
    ensures ok == dtc.Some?
    ensures ok ==> fee == ToInclude(TiersOf(dtc.value, decimals), value)
  {
    if dtc.None? { return 0, false; }
    var row := dtc.value;
    var bound := FromUiString(row.amountLv1Str, "", decimals);
    if value <= bound {
      fee := FromUiString("", row.dtcLv1Str, decimals);
      return fee, true;
    }
    bound := FromUiString(row.amountLv2Str, "", decimals);
    if value <= bound {
      fee := FromUiString("", row.dtcLv2Str, decimals);
      return fee, true;
    }
    bound := FromUiString(row.amountLv3Str, "", decimals);
    if value <= bound {
      fee := FromUiString("", row.dtcLv3Str, decimals);
      return fee, true;
    }
    fee := FromUiString("", row.dtcLv4Str, decimals);
    return fee, true;
  }

  /** v pays its own fee. */
  predicate Covers(t: Tiers, v: int)
    requires t.Valid()
  {
    Included(t, v) <= v
  }

  /** v is at most every amount that pays its own fee. */
  ghost predicate AtMostCovering(t: Tiers, v: int)
    requires t.Valid()
  {
    forall u :: Covers(t, u) ==> v <= u
  }

  /** If an amount pays its own fee, so does that fee. */
  lemma FeeCoversItself(t: Tiers, u: int)
    requires t.Valid() && NonDecreasing(t.fees) && Covers(t, u)
    ensures Covers(t, Included(t, u))
  {}

  /** Of the listed fees, the first that covers itself is the least amount that does; the last one always does. */
  lemma FirstCoveringFee(t: Tiers, k: nat)
    requires t.Valid() && NonDecreasing(t.fees) && k <= 4
    requires forall j :: 0 <= j < k ==> !Covers(t, t.fees[j])
    ensures k < 4 && AtMostCovering(t, t.fees[k])
  {
    var top := IncludedLevel(t, t.fees[3]);
    assert top < 3 ==> t.fees[top] <= t.fees[3];
    forall u | Covers(t, u) ensures k < 4 && t.fees[k] <= u {
      FeeCoversItself(t, u);
      var i := IncludedLevel(t, u);
      assert i >= k;
      assert i > k ==> t.fees[k] <= t.fees[i];
    }
  }

  function FeeTexts(row: Dtc): (s: seq<string>)
    ensures |s| == 4
  {
    [row.dtcLv1Str, row.dtcLv2Str, row.dtcLv3Str, row.dtcLv4Str]
  }

  lemma FeeOfText(row: Dtc, decimals: int, j: nat)
    requires j < 4
    ensures TiersOf(row, decimals).fees[j] == Units(FeeTexts(row)[j], decimals)
  {}

  /** The loop's test: does fee n denote an amount that pays its own fee? */
  method FeeCovers(row: Dtc, decimals: int, n: nat) returns (yes: bool)
    requires n < 4
    ensures yes <==> Covers(TiersOf(row, decimals), TiersOf(row, decimals).fees[n])
  {
    var value := FromUiString("", FeeTexts(row)[n], decimals);
    var includedDtc, found := GetIncludedDtcBigInt(Some(row), value, decimals);
    yes := found && includedDtc <= value;
    FeeOfText(row, decimals, n);
  }

  /** Fee j is the first of the four that pays for itself. */
  predicate FirstCovering(t: Tiers, j: nat)
    requires t.Valid()
  {
    j < 4 && Covers(t, t.fees[j]) && forall i :: 0 <= i < j ==> !Covers(t, t.fees[i])
  }

  /**
    The first fee text whose amount pays its own fee. With fees that never fall there always is one, and it
    denotes the least amount that covers its own fee.
   */
  method GetMinValueIncludeGasFee(dtc: Option<Dtc>, decimals: int) returns (text: string, ok: bool)
    ensures !ok ==> text == ""
    ensures dtc.None? ==> !ok
    ensures dtc.Some? ==>
      var t := TiersOf(dtc.value, decimals);
      && (ok <==> exists j :: 0 <= j < 4 && Covers(t, t.fees[j]))
      && (ok ==> Covers(t, Units(text, decimals)))
      && (ok ==> exists j: nat :: FirstCovering(t, j) && text == FeeTexts(dtc.value)[j])
      && (NonDecreasing(t.fees) ==> ok && AtMostCovering(t, Units(text, decimals)))
  {
    if dtc.None? { return "", false; }
    var row := dtc.value;
    ghost var t := TiersOf(row, decimals);
    for n := 0 to 4
      invariant forall j :: 0 <= j < n ==> !Covers(t, t.fees[j])
    {
      var yes := FeeCovers(row, decimals, n);
      if yes {
        FeeOfText(row, decimals, n);
        assert FirstCovering(t, n);
        if NonDecreasing(t.fees) {
          FirstCoveringFee(t, n);
        }
        return FeeTexts(row)[n], true;
      }
    }
    if NonDecreasing(t.fees) {
      FirstCoveringFee(t, 4);
    }
    return "", false;
  }
}
