/** The read-only views of a book: the snapshot, the best prices and the depth in shares, and
    how they agree with each other and with what the next order will meet. */
module Views {
  import opened Orders
  import opened Fills
  import opened PriceTime
  import opened Pairing
  import opened Matching
  import opened Quiescence
  import opened Ledger
  import opened Runs
  import opened Priority

  datatype OrderDetail = OrderDetail(
    txId: string, accountId: string, limitYesPrice: u64, sharesRemaining: u64, side: u32, action: u32)

  datatype BookSnapshot = BookSnapshot(bids: seq<OrderDetail>, asks: seq<OrderDetail>) {
    function Side(bidSide: bool): seq<OrderDetail> { if bidSide then bids else asks }
  }

  function Detail(o: Order): OrderDetail {
    OrderDetail(o.txId, o.account, o.limit, Remaining(o), o.side, o.action)
  }

  function Details(s: seq<Order>): seq<OrderDetail> {
    if s == [] then [] else [Detail(s[0])] + Details(s[1..])
  }

  /** Depth 0 means everything. */
  function Take(s: seq<Order>, depth: nat): seq<Order> {
    if depth == 0 || depth >= |s| then s else s[..depth]
  }

  function Snapshot(b: BookState, depth: nat): BookSnapshot {
    BookSnapshot(Details(Take(BestFirst(true, b.bids), depth)), Details(Take(BestFirst(false, b.asks), depth)))
  }

  function MaxLimit(s: seq<Order>): Option<u64> {
    if s == [] then None
    else
      var rest := MaxLimit(s[1..]);
      if rest.Some? && rest.value >= s[0].limit then rest else Some(s[0].limit)
  }

  function MinLimit(s: seq<Order>): Option<u64> {
    if s == [] then None
    else
      var rest := MinLimit(s[1..]);
      if rest.Some? && rest.value < s[0].limit then rest else Some(s[0].limit)
  }

  /** Best bid and best ask of the price update, as integers. */
  function BestPrice(b: BookState, bidSide: bool): Option<u64> {
    if bidSide then MaxLimit(b.bids) else MinLimit(b.asks)
  }

  /** Unfilled shares of one side, in saturating 64-bit arithmetic. */
  function DepthShares(s: seq<Order>, acc: u64): u64 {
    if s == [] then acc else DepthShares(s[1..], SaturatingAdd(acc, Remaining(s[0])))
  }

  function TotalRemaining(s: seq<Order>): nat {
    if s == [] then 0 else Remaining(s[0]) + TotalRemaining(s[1..])
  }

  function TotalListed(s: seq<OrderDetail>): nat {
    if s == [] then 0 else s[0].sharesRemaining + TotalListed(s[1..])
  }

  lemma {:induction false} DetailsAt(s: seq<Order>)
    ensures |Details(s)| == |s| && forall i :: 0 <= i < |s| ==> Details(s)[i] == Detail(s[i])
  {
    if s != [] { DetailsAt(s[1..]); }
  }

  lemma SortKeepsLength(bidSide: bool, s: seq<Order>)
    ensures |BestFirst(bidSide, s)| == |s|
  {
    hide FitsU64, BestFirst;
    BestFirstIsStableSort(bidSide, s, 0);
    assert |BestFirst(bidSide, s)| == |multiset(s)|;
  }

  /** A shallower snapshot is a prefix of the full one, as long as asked for or as there is. */
  lemma SnapshotIsPrefix(b: BookState, depth: nat, bidSide: bool)
    requires depth > 0
    ensures var full, part := Snapshot(b, 0).Side(bidSide), Snapshot(b, depth).Side(bidSide);
            part <= full && |full| == |b.Side(bidSide)|
            && |part| == if depth <= |full| then depth else |full|
  {
    hide FitsU64, Detail;
    var s := BestFirst(bidSide, b.Side(bidSide));
    SortKeepsLength(bidSide, b.Side(bidSide));
    DetailsAt(s);
    DetailsAt(Take(s, depth));
  }

  /** The `k`-th entry listed is the `k`-th best order of the side, field by field. */
  lemma EntryIsOrder(b: BookState, depth: nat, bidSide: bool, k: nat)
    requires k < |Snapshot(b, depth).Side(bidSide)|
    ensures var entry, s := Snapshot(b, depth).Side(bidSide)[k], BestFirst(bidSide, b.Side(bidSide));
            && k < |s| && s[k] in b.Side(bidSide)
            && entry.txId == s[k].txId && entry.accountId == s[k].account
            && entry.side == s[k].side && entry.action == s[k].action && entry.limitYesPrice == s[k].limit
            && entry.sharesRemaining == if s[k].sharesFilled < s[k].qty then s[k].qty - s[k].sharesFilled else 0
  {
    hide FitsU64, BestFirst;
    var s := BestFirst(bidSide, b.Side(bidSide));
    MemberOfSorted(bidSide, b.Side(bidSide));
    DetailsAt(Take(s, depth));
    assert Take(s, depth)[k] == s[k] && s[k] in s;
  }

  lemma {:induction false} LimitsBound(s: seq<Order>)
    ensures MaxLimit(s).None? <==> s == []
    ensures MinLimit(s).None? <==> s == []
    ensures forall o :: o in s ==> MinLimit(s).value <= o.limit <= MaxLimit(s).value
    ensures s != [] ==> exists o :: o in s && o.limit == MaxLimit(s).value
    ensures s != [] ==> exists o :: o in s && o.limit == MinLimit(s).value
  {
    hide FitsU64;
    if s != [] {
      LimitsBound(s[1..]);
      assert s == [s[0]] + s[1..] && s[0] in s;
    }
  }

  lemma BestOfAll(bidSide: bool, s: seq<Order>, best: Order)
    requires best in s && forall o :: o in s ==> Rank(bidSide, best) <= Rank(bidSide, o)
    ensures (if bidSide then MaxLimit(s) else MinLimit(s)) == Some(best.limit)
  {
    hide FitsU64, MaxLimit, MinLimit;
    LimitsBound(s);
    assert s != [];
    var top :| top in s && top.limit == MaxLimit(s).value;
    var low :| low in s && low.limit == MinLimit(s).value;
  }

  /** The snapshot's heads are the prices of the price update. */
  lemma SnapshotHeadIsBestPrice(b: BookState, bidSide: bool)
    ensures var full := Snapshot(b, 0).Side(bidSide);
            BestPrice(b, bidSide) == if full == [] then None else Some(full[0].limitYesPrice)
  {
    hide FitsU64, BestFirst;
    var side := b.Side(bidSide);
    var s := BestFirst(bidSide, side);
    SortKeepsLength(bidSide, side);
    DetailsAt(s);
    if side != [] {
      MemberOfSorted(bidSide, side);
      assert s[0] in s;
      forall o | o in side ensures Rank(bidSide, s[0]) <= Rank(bidSide, o) {
        assert o in s;
      }
      BestOfAll(bidSide, side, s[0]);
    }
  }

  /** The saturating fold is the true total, capped once. */
  lemma {:induction false} DepthIsCappedTotal(s: seq<Order>, acc: u64)
    ensures DepthShares(s, acc) == if acc + TotalRemaining(s) <= U64_MAX then acc + TotalRemaining(s) else U64_MAX
  {
    if s != [] { DepthIsCappedTotal(s[1..], SaturatingAdd(acc, Remaining(s[0]))); }
  }

  lemma {:induction false} InsertKeepsTotal(bidSide: bool, o: Order, s: seq<Order>)
    ensures TotalRemaining(StableInsert(bidSide, o, s)) == Remaining(o) + TotalRemaining(s)
  {
    hide FitsU64, Remaining;
    assert ([o] + s)[1..] == s;
    if s != [] && Rank(bidSide, s[0]) < Rank(bidSide, o) {
      InsertKeepsTotal(bidSide, o, s[1..]);
      assert ([s[0]] + StableInsert(bidSide, o, s[1..]))[1..] == StableInsert(bidSide, o, s[1..]);
    }
  }

  lemma {:induction false} SortKeepsTotal(bidSide: bool, s: seq<Order>)
    ensures TotalRemaining(BestFirst(bidSide, s)) == TotalRemaining(s)
  {
    hide FitsU64, Remaining;
    if s != [] {
      SortKeepsTotal(bidSide, s[1..]);
      InsertKeepsTotal(bidSide, s[0], BestFirst(bidSide, s[1..]));
    }
  }

  lemma {:induction false} ListedIsRemaining(s: seq<Order>)
    ensures TotalListed(Details(s)) == TotalRemaining(s)
  {
    hide FitsU64, Remaining;
    if s != [] {
      ListedIsRemaining(s[1..]);
      assert Details(s)[1..] == Details(s[1..]);
    }
  }

  /** The depth in shares is what the full snapshot lists, summed and capped at 2^64 - 1. */
  lemma DepthIsWhatIsListed(b: BookState, bidSide: bool)
    ensures var listed := TotalListed(Snapshot(b, 0).Side(bidSide));
            DepthShares(b.Side(bidSide), 0) == if listed <= U64_MAX then listed else U64_MAX
  {
    hide FitsU64, Remaining, BestFirst, DepthShares, TotalListed, TotalRemaining;
    DepthIsCappedTotal(b.Side(bidSide), 0);
    SortKeepsTotal(bidSide, b.Side(bidSide));
    ListedIsRemaining(BestFirst(bidSide, b.Side(bidSide)));
  }

  /** `a` is listed before `b`. */
  ghost predicate ListedInOrder(listing: seq<OrderDetail>, a: Order, b: Order) {
    exists p, q :: 0 <= p < q < |listing| && listing[p] == Detail(a) && listing[q] == Detail(b)
  }

  lemma BetterIsListedFirst(bidSide: bool, s: seq<Order>, a: Order, b: Order)
    requires PriceTimeSorted(bidSide, s) && a in s && b in s && Better(bidSide, a, b)
    ensures ListedInOrder(Details(s), a, b)
  {
    hide FitsU64, Details, Detail;
    DetailsAt(s);
    var p :| 0 <= p < |s| && s[p] == a;
    var q :| 0 <= q < |s| && s[q] == b;
    assert p < q;
    assert Details(s)[p] == Detail(a) && Details(s)[q] == Detail(b);
  }

  /** The full snapshot of a reachable book is the queue the next order meets: whatever that
      order is, its fills take resting orders, as listed, from left to right of the opposite
      side's listing. */
  lemma FillsFollowTheListing(ops: seq<Op>, x: Order, now: Seconds, i: nat, j: nat)
    requires Stamped(Placed(ops))
    requires i < j < |AddTo(Run(ops).book, x, now).matches|
    ensures var matches := AddTo(Run(ops).book, x, now).matches;
            ListedInOrder(Snapshot(Run(ops).book, 0).Side(!IsBid(x)),
                          RestingOf(IsBid(x), matches[i]), RestingOf(IsBid(x), matches[j]))
  {
    hide FitsU64, TallyOf, Settleable, Chained, Quiet, Walk, BestFirst, Run, Stamped, Remaining, Attempt, Better, Details;
    RunAccounted(ops);
    NoTradeThrough(ops, x, now);
    var side := Run(ops).book.Side(!IsBid(x));
    var s := BestFirst(!IsBid(x), side);
    var matches := AddTo(Run(ops).book, x, now).matches;
    MemberOfSorted(!IsBid(x), side);
    BestFirstIsPriceTime(!IsBid(x), side);
    WalkMeets(x, s, now);
    assert matches[i] in matches && matches[j] in matches;
    BetterIsListedFirst(!IsBid(x), s, RestingOf(IsBid(x), matches[i]), RestingOf(IsBid(x), matches[j]));
  }
}
