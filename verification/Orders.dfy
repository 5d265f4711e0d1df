/** Orders of the CLOB: the signed order plus its cumulative fill state, in the
    integer widths of the wire message. */
module Orders {

  datatype Option<+T> = None | Some(value: T)

  const U64_MAX: int := 0xFFFF_FFFF_FFFF_FFFF

  type u32 = x: int | 0 <= x < 0x1_0000_0000
  type u64 = x: int | 0 <= x <= U64_MAX

  /** A Unix time: the program clamps a signed 64-bit timestamp at zero. */
  type Seconds = x: int | 0 <= x < 0x8000_0000_0000_0000

  /** 1_000_000 is a YES price of 1.0. */
  const PRICE_SCALE: u64 := 1_000_000
  const DEADLINE_MARGIN_SECS: u64 := 30

  const SIDE_YES: u32 := 0
  const SIDE_NO: u32 := 1
  const ACTION_BUY: u32 := 0
  const ACTION_SELL: u32 := 1

  /** `arrival` is the one field the program does not have: the position of this order's
      placement in the history being observed. No operation reads or changes it; it lets
      theorems tell two orders apart and say which came first. `account` and `evm` are the
      trader's account id and address in canonical form (prefix stripped, lower case). */
  datatype OrderData = OrderData(
    arrival: nat,
    txId: string, marketId: string, account: string, evm: string,
    side: u32, action: u32,
    limit: u64, qty: u64, cap: u64, deadline: u64,
    sharesFilled: u64, collateralFilled: u64)

  function Remaining(o: OrderData): u64 {
    if o.sharesFilled >= o.qty then 0 else o.qty - o.sharesFilled
  }

  /** What keeps the additions to an order's fill state within 64 bits. */
  predicate FitsU64(o: OrderData) {
    o.collateralFilled + Remaining(o) <= U64_MAX
  }

  type Order = o: OrderData | FitsU64(o)
    witness OrderData(0, "", "", "", "", 0, 0, 0, 0, 0, 0, 0, 0)

  predicate IsBid(o: OrderData) {
    (o.side == SIDE_YES && o.action == ACTION_BUY) || (o.side == SIDE_NO && o.action == ACTION_SELL)
  }

  predicate SameTrader(a: OrderData, b: OrderData) {
    a.evm == b.evm || a.account == b.account
  }

  predicate Expired(o: OrderData, now: Seconds) {
    o.deadline <= now + DEADLINE_MARGIN_SECS
  }

  /** The two in-place additions a fill makes to an order. */
  function Filled(o: Order, shares: u64, collateral: u64): (r: Order)
    requires shares <= Remaining(o) && collateral <= shares
    ensures Remaining(r) == Remaining(o) - shares
  {
    o.(sharesFilled := o.sharesFilled + shares, collateralFilled := o.collateralFilled + collateral)
  }

  /** `late` is the same order as `early`, possibly after more fills. */
  predicate Grew(early: OrderData, late: OrderData) {
    && late == early.(sharesFilled := late.sharesFilled, collateralFilled := late.collateralFilled)
    && early.sharesFilled <= late.sharesFilled
    && early.collateralFilled <= late.collateralFilled
  }

  /** The invariant of an order admitted in a consistent fill state: what it has paid or
      received never exceeds the shares it has filled, nor its quantity, nor a BUY's cap. */
  predicate Consistent(o: OrderData) {
    && o.collateralFilled <= o.sharesFilled <= o.qty
    && (o.action == ACTION_BUY ==> o.collateralFilled <= o.cap)
  }

  /** Every order in a consistent fill state fits, whatever its quantity. */
  lemma ConsistentFits(o: OrderData)
    requires Consistent(o)
    ensures FitsU64(o)
  {
  }
}
