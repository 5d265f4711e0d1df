/** Sizing one fill between a bid and an ask: the settlement contract's rounding, the two
    collateral caps, and the largest fill that respects both. */
module Fills {
  import opened Orders

  /** YES pays floor(fill * price / 1e6); NO pays the rest of the fill. */
  function YesLeg(fill: nat, price: nat): nat {
    fill * price / PRICE_SCALE
  }

  predicate UsablePrice(price: nat) {
    0 < price < PRICE_SCALE
  }

  lemma YesLegBounds(fill: nat, price: nat)
    requires price <= PRICE_SCALE
    ensures YesLeg(fill, price) <= fill
    ensures YesLeg(fill, price) * PRICE_SCALE <= fill * price < (YesLeg(fill, price) + 1) * PRICE_SCALE
  {
    assert fill * price <= fill * PRICE_SCALE;
  }

  /** One more share adds 0 or 1 unit to the YES leg, hence 1 or 0 to the NO leg. */
  lemma YesLegStep(fill: nat, price: nat)
    requires price <= PRICE_SCALE
    ensures YesLeg(fill, price) <= YesLeg(fill + 1, price) <= YesLeg(fill, price) + 1
  {
    assert (fill + 1) * price == fill * price + price;
  }

  /** Both legs are monotone in the fill. */
  lemma {:induction false} LegsMonotone(f: nat, g: nat, price: nat)
    requires f <= g && price <= PRICE_SCALE
    ensures YesLeg(f, price) <= YesLeg(g, price)
    ensures f - YesLeg(f, price) <= g - YesLeg(g, price)
    decreases g - f
  {
    if f < g {
      YesLegStep(f, price);
      LegsMonotone(f + 1, g, price);
    }
  }

  function SplitCollateral(fill: u64, price: u64): (r: Option<(u64, u64)>)
    ensures r.Some? ==> UsablePrice(price) && r.value.0 + r.value.1 == fill && r.value.0 > 0 && r.value.1 > 0
  {
    if fill == 0 || price == 0 || price >= PRICE_SCALE then None
    else
      YesLegBounds(fill, price);
      var yes := YesLeg(fill, price);
      var no := fill - yes;
      if yes == 0 || no == 0 then None else Some((yes, no))
  }

  function LegCollateral(o: OrderData, yes: nat, no: nat): nat {
    if o.side == SIDE_YES then yes else no
  }

  function SaturatingAdd(a: u64, b: nat): u64 {
    if a + b <= U64_MAX then a + b else U64_MAX
  }

  predicate WithinCap(o: OrderData, yes: nat, no: nat) {
    o.action != ACTION_BUY || SaturatingAdd(o.collateralFilled, LegCollateral(o, yes, no)) <= o.cap
  }

  predicate CapsOk(bid: OrderData, ask: OrderData, price: nat, fill: nat)
    requires price <= PRICE_SCALE
  {
    YesLegBounds(fill, price);
    var yes := YesLeg(fill, price);
    WithinCap(bid, yes, fill - yes) && WithinCap(ask, yes, fill - yes)
  }

  /** A fill the contract would settle: positive on both legs and within both BUY caps. */
  predicate Admissible(bid: OrderData, ask: OrderData, price: nat, fill: nat) {
    && UsablePrice(price)
    && 0 < YesLeg(fill, price) < fill
    && CapsOk(bid, ask, price, fill)
  }

  /** The caps admit a prefix of the fills. */
  lemma CapsPrefix(bid: OrderData, ask: OrderData, price: nat, f: nat, g: nat)
    requires f <= g && price <= PRICE_SCALE && CapsOk(bid, ask, price, g)
    ensures CapsOk(bid, ask, price, f)
  {
    LegsMonotone(f, g, price);
  }

  // ----- the reference form: scan down from the largest fill

  function LargestWithinCaps(bid: OrderData, ask: OrderData, price: nat, upper: nat): (f: nat)
    requires price <= PRICE_SCALE
    ensures f <= upper
    ensures forall g :: f < g <= upper ==> !CapsOk(bid, ask, price, g)
    ensures f == 0 || CapsOk(bid, ask, price, f)
  {
    if upper == 0 || CapsOk(bid, ask, price, upper) then upper
    else LargestWithinCaps(bid, ask, price, upper - 1)
  }

  function MaxFill(bid: OrderData, ask: OrderData, price: u64, upper: u64): Option<u64> {
    if upper == 0 || price == 0 || price >= PRICE_SCALE then None
    else
      var f := LargestWithinCaps(bid, ask, price, upper);
      if SplitCollateral(f, price).Some? then Some(f) else None
  }

  /** The answer is the largest admissible fill; no answer means that none is admissible. */
  lemma MaxFillIsMaximal(bid: OrderData, ask: OrderData, price: u64, upper: u64)
    ensures MaxFill(bid, ask, price, upper).Some? ==>
              var f := MaxFill(bid, ask, price, upper).value;
              f <= upper && Admissible(bid, ask, price, f)
              && forall g: nat :: f < g <= upper ==> !Admissible(bid, ask, price, g)
    ensures MaxFill(bid, ask, price, upper).None? ==>
              forall g: nat :: g <= upper ==> !Admissible(bid, ask, price, g)
  {
    if upper > 0 && UsablePrice(price) {
      var f := LargestWithinCaps(bid, ask, price, upper);
      forall g: nat | g <= upper && SplitCollateral(f, price).None?
        ensures !Admissible(bid, ask, price, g)
      {
        if g <= f { LegsMonotone(g, f, price); }
      }
    }
  }

  // ----- the program's form: binary search in u64

  /** `lo + (hi - lo + 1) / 2` as the program evaluates it: None when `hi - lo + 1`
      does not fit in 64 bits. */
  function Midpoint(lo: u64, hi: u64): (r: Option<u64>)
    requires lo < hi
    ensures r.None? <==> lo == 0 && hi == U64_MAX
    ensures r.Some? ==> lo < r.value <= hi
  {
    if hi - lo + 1 > U64_MAX then None else Some(lo + (hi - lo + 1) / 2)
  }

  /** The overflow is reachable: 2^64 - 1 shares on offer to a BUY NO order whose cap is 0. */
  lemma MidpointCanOverflow()
    ensures exists bid: OrderData, ask: OrderData, price: u64 ::
              Remaining(bid) == Remaining(ask) == U64_MAX && UsablePrice(price) && !CapsOk(bid, ask, price, U64_MAX)
    ensures Midpoint(0, U64_MAX).None?
  {
    var sellNo := OrderData(0, "a", "m", "1", "1", SIDE_NO, ACTION_SELL, 500_000, U64_MAX, 0, 0, 0, 0);
    var buyNo := OrderData(1, "b", "m", "2", "2", SIDE_NO, ACTION_BUY, 500_000, U64_MAX, 0, 0, 0, 0);
    YesLegBounds(U64_MAX, 500_000);
    assert U64_MAX * 500_000 / PRICE_SCALE < U64_MAX;
    assert Remaining(sellNo) == Remaining(buyNo) == U64_MAX && !CapsOk(sellNo, buyNo, 500_000, U64_MAX);
  }

  datatype Sizing = MidpointOverflow | Sized(fill: Option<u64>)

  /** The search returns the reference answer for every input but one family: no midpoint
      exists when all 2^64 - 1 shares are on offer and the caps do not allow them. */
  method FindMaxFill(bid: OrderData, ask: OrderData, price: u64, upper: u64) returns (r: Sizing)
    ensures r.MidpointOverflow? <==>
              UsablePrice(price) && upper == U64_MAX && !CapsOk(bid, ask, price, upper)
    ensures r.Sized? ==> r.fill == MaxFill(bid, ask, price, upper)
  {
    if upper == 0 || price == 0 || price >= PRICE_SCALE {
      return Sized(None);
    }
    var lo: u64, hi: u64 := 0, upper;
    if CapsOk(bid, ask, price, upper) {
      lo := upper;
    }
    while lo < hi
      invariant lo <= hi <= upper
      invariant lo == 0 || CapsOk(bid, ask, price, lo)
      invariant hi < upper ==> !CapsOk(bid, ask, price, hi + 1)
      invariant lo < hi ==> !CapsOk(bid, ask, price, upper)
      invariant upper == U64_MAX && !CapsOk(bid, ask, price, upper) ==> lo == 0 && hi == upper
      decreases hi - lo
    {
      var mid := Midpoint(lo, hi);
      if mid.None? {
        return MidpointOverflow;
      }
      if CapsOk(bid, ask, price, mid.value) {
        lo := mid.value;
      } else {
        hi := mid.value - 1;
      }
    }
    ghost var f := LargestWithinCaps(bid, ask, price, upper);
    if lo < f { CapsPrefix(bid, ask, price, lo + 1, f); }
    r := Sized(if SplitCollateral(lo, price).Some? then Some(lo) else None);
  }
}
