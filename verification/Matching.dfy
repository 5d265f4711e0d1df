/** The matching engine: one market's book, and what adding or removing an order does. */
module Matching {
  import opened Orders
  import opened Fills
  import opened PriceTime
  import opened Pairing

  datatype BookState = BookState(bids: seq<Order>, asks: seq<Order>) {
    function Side(bidSide: bool): seq<Order> { if bidSide then bids else asks }
    function Orders(): seq<Order> { bids + asks }
  }

  const EMPTY_BOOK := BookState([], [])

  // ----- the specification, on values

  datatype Walked = Walked(incoming: Order, left: seq<Order>, matches: seq<Match>)

  /** The incoming order meets the sorted opposite side, one resting order at a time. */
  function Walk(x: Order, opposite: seq<Order>, now: Seconds): Walked
    decreases |opposite|
  {
    if opposite == [] || Remaining(x) == 0 then Walked(x, opposite, [])
    else
      var r := opposite[0];
      if Expired(r, now) then Walk(x, opposite[1..], now)
      else if !Crosses(BidOf(x, r), AskOf(x, r)) then Walked(x, opposite, [])
      else
        var attempt := Attempt(x, r);
        if attempt.None? then
          var w := Walk(x, opposite[1..], now);
          w.(left := [r] + w.left)
        else
          var m := attempt.value;
          var w := Walk(After(x, m), opposite[1..], now);
          Walked(w.incoming, Kept(After(r, m)) + w.left, [m] + w.matches)
  }

  /** An order stays only while it has shares left. */
  function Kept(o: Order): seq<Order> {
    if Remaining(o) == 0 then [] else [o]
  }

  /** The search for a fill overflows: both orders offer 2^64 - 1 shares and a cap allows less. */
  predicate PairOverflows(x: Order, r: Order) {
    && !SameTrader(x, r) && ExecutionPrice(r, x).Some?
    && Remaining(x) == Remaining(r) == U64_MAX
    && !CapsOk(BidOf(x, r), AskOf(x, r), ExecutionPrice(r, x).value, U64_MAX)
  }

  /** The walk comes to such a pair. */
  predicate WalkOverflows(x: Order, opposite: seq<Order>, now: Seconds)
    decreases |opposite|
  {
    if opposite == [] || Remaining(x) == 0 then false
    else
      var r := opposite[0];
      if Expired(r, now) then WalkOverflows(x, opposite[1..], now)
      else if !Crosses(BidOf(x, r), AskOf(x, r)) then false
      else
        PairOverflows(x, r) ||
        var attempt := Attempt(x, r);
        WalkOverflows(if attempt.None? then x else After(x, attempt.value), opposite[1..], now)
  }

  predicate AddOverflows(b: BookState, x: Order, now: Seconds) {
    !Refused(x, now) && WalkOverflows(x, BestFirst(!IsBid(x), b.Side(!IsBid(x))), now)
  }

  /** Only an order of 2^64 - 1 shares can come to an overflow, and only on meeting another. */
  lemma {:induction false} OverflowNeedsTwo(x: Order, opposite: seq<Order>, now: Seconds)
    requires WalkOverflows(x, opposite, now)
    ensures Remaining(x) == U64_MAX && exists r :: r in opposite && Remaining(r) == U64_MAX
    decreases |opposite|
  {
    hide Attempt, Crosses, CapsOk, Expired, SameTrader;
    var r, rest := opposite[0], opposite[1..];
    assert opposite == [r] + rest;
    if Expired(r, now) || !PairOverflows(x, r) {
      var attempt := Attempt(x, r);
      OverflowNeedsTwo(if Expired(r, now) || attempt.None? then x else After(x, attempt.value), rest, now);
    } else {
      assert r in opposite;
    }
  }

  datatype Outcome = Outcome(book: BookState, matches: seq<Match>)

  predicate Refused(x: Order, now: Seconds) {
    Expired(x, now) || Remaining(x) == 0
  }

  function WalkOf(b: BookState, x: Order, now: Seconds): Walked {
    Walk(x, BestFirst(!IsBid(x), b.Side(!IsBid(x))), now)
  }

  function AddTo(b: BookState, x: Order, now: Seconds): Outcome {
    if Refused(x, now) then Outcome(b, [])
    else
      var w := WalkOf(b, x, now);
      var same := b.Side(IsBid(x)) + Kept(w.incoming);
      Outcome(if IsBid(x) then BookState(same, w.left) else BookState(w.left, same), w.matches)
  }

  /** The first position holding the id, or the length when there is none. */
  function Position(s: seq<Order>, txId: string): (p: nat)
    ensures p <= |s|
    ensures p < |s| ==> s[p].txId == txId
    ensures forall i :: 0 <= i < p ==> s[i].txId != txId
  {
    if s == [] || s[0].txId == txId then 0 else 1 + Position(s[1..], txId)
  }

  function Without(s: seq<Order>, txId: string): seq<Order> {
    var p := Position(s, txId);
    if p < |s| then s[..p] + s[p + 1..] else s
  }

  predicate Holds(s: seq<Order>, txId: string) {
    Position(s, txId) < |s|
  }

  function RemoveFrom(b: BookState, txId: string): BookState {
    if Holds(b.bids, txId) then b.(bids := Without(b.bids, txId))
    else b.(asks := Without(b.asks, txId))
  }

  // ----- the program's form

  class Book {
    var bids: seq<Order>
    var asks: seq<Order>

    function State(): BookState
      reads this
    {
      BookState(bids, asks)
    }

    constructor ()
      ensures State() == EMPTY_BOOK
    {
      bids, asks := [], [];
    }

    /** None exactly when a fill's search overflows on the way: a checked build panics there
        and an unchecked one loops, so nothing is said of the book. */
    method Add(order: Order, now: Seconds) returns (r: Option<seq<Match>>)
      modifies this
      ensures r.None? <==> AddOverflows(old(State()), order, now)
      ensures r.Some? ==> Outcome(State(), r.value) == AddTo(old(State()), order, now)
    {
      var incoming := order;
      if Expired(incoming, now) || Remaining(incoming) == 0 {
        return Some([]);
      }
      var incomingIsBid := IsBid(incoming);
      var opposite := BestFirst(!incomingIsBid, if incomingIsBid then asks else bids);
      var walked := MatchAgainst(incoming, opposite, now);
      if walked.None? {
        return None;
      }
      incoming, opposite := walked.value.incoming, walked.value.left;
      if incomingIsBid {
        asks := opposite;
        if Remaining(incoming) > 0 { bids := bids + [incoming]; }
      } else {
        bids := opposite;
        if Remaining(incoming) > 0 { asks := asks + [incoming]; }
      }
      r := Some(walked.value.matches);
    }

    /** The matching loop, over an index that stands still when an order is removed. */
    method MatchAgainst(order: Order, sorted: seq<Order>, now: Seconds)
      returns (r: Option<Walked>)
      ensures r.None? <==> WalkOverflows(order, sorted, now)
      ensures r.Some? ==> r.value == Walk(order, sorted, now)
    {
      hide FitsU64, Attempt, Crosses, Expired, SameTrader, Fits, Walk, WalkOverflows, PairOverflows, BidOf, AskOf, Filled;
      var incoming, opposite, matches := order, sorted, [];
      var i := 0;
      while i < |opposite| && Remaining(incoming) > 0
        invariant i <= |opposite|
        invariant Walk(order, sorted, now) == Prepend(opposite[..i], matches, Walk(incoming, opposite[i..], now))
        invariant WalkOverflows(order, sorted, now) == WalkOverflows(incoming, opposite[i..], now)
        decreases |opposite| - i
      {
        var resting := opposite[i];
        ghost var before, rest := opposite[..i], opposite[i + 1..];
        assert opposite[i..] == [resting] + rest && opposite[..i + 1] == before + [resting];
        WalkUnfold(incoming, resting, rest, now);
        OverflowUnfold(incoming, resting, rest, now);
        if Expired(resting, now) {
          opposite := opposite[..i] + opposite[i + 1..];
          assert opposite[..i] == before && opposite[i..] == rest;
          continue;
        }
        if !Crosses(BidOf(incoming, resting), AskOf(incoming, resting)) {
          break;
        }
        var overflowed, attempt := TryPair(incoming, resting);
        if overflowed {
          return None;
        }
        if attempt.None? {
          PrependOne(before, [resting], matches, [], Walk(incoming, rest, now));
          i := i + 1;
          continue;
        }
        var m := attempt.value;
        ghost var was := matches;
        matches := matches + [m];
        resting := After(resting, m);
        incoming := After(incoming, m);
        PrependOne(before, Kept(resting), was, [m], Walk(incoming, rest, now));
        opposite := opposite[i := resting];
        if Remaining(opposite[i]) == 0 {
          opposite := opposite[..i] + opposite[i + 1..];
        } else {
          i := i + 1;
        }
        assert opposite[..i] == before + Kept(resting) && opposite[i..] == rest;
      }
      assert opposite == opposite[..i] + opposite[i..];
      if i == |opposite| || Remaining(incoming) == 0 {
        WalkEnds(incoming, opposite[i..], now);
      }
      r := Some(Walked(incoming, opposite, matches));
    }

    /** The four reasons to skip a crossing pair, then the fill. */
    method TryPair(incoming: Order, resting: Order) returns (overflowed: bool, r: Option<Match>)
      ensures overflowed <==> PairOverflows(incoming, resting)
      ensures !overflowed ==> r == Attempt(incoming, resting)
    {
      hide FitsU64, CapsOk;
      if SameTrader(incoming, resting) {
        return false, None;
      }
      var price := ExecutionPrice(resting, incoming);
      if price.None? {
        return false, None;
      }
      var bid, ask := if IsBid(incoming) then incoming else resting, if IsBid(incoming) then resting else incoming;
      var upper := Min(Remaining(incoming), Remaining(resting));
      var sizing := FindMaxFill(bid, ask, price.value, upper);
      if sizing.MidpointOverflow? {
        return true, None;
      }
      if sizing.fill.None? {
        return false, None;
      }
      var fill := sizing.fill.value;
      var split := SplitCollateral(fill, price.value);
      return false, Some(Match(incoming.marketId, bid, ask, fill, price.value, split.value.0, split.value.1));
    }

    method Remove(txId: string) returns (found: bool)
      modifies this
      ensures State() == RemoveFrom(old(State()), txId)
      ensures found <==> exists o :: o in old(State()).Orders() && o.txId == txId
    {
      var p := Position(bids, txId);
      if p < |bids| {
        assert bids[p] in State().Orders();
        bids := bids[..p] + bids[p + 1..];
        return true;
      }
      p := Position(asks, txId);
      if p < |asks| {
        assert asks[p] in State().Orders();
        asks := asks[..p] + asks[p + 1..];
        return true;
      }
      return false;
    }
  }

  lemma WalkUnfold(x: Order, r: Order, rest: seq<Order>, now: Seconds)
    requires Remaining(x) > 0
    ensures Walk(x, [r] + rest, now) ==
            if Expired(r, now) then Walk(x, rest, now)
            else if !Crosses(BidOf(x, r), AskOf(x, r)) then Walked(x, [r] + rest, [])
            else if Attempt(x, r).None? then Prepend([r], [], Walk(x, rest, now))
            else var m := Attempt(x, r).value;
                 Prepend(Kept(After(r, m)), [m], Walk(After(x, m), rest, now))
  {
    hide FitsU64, Attempt, Crosses, Expired, Filled, PairOverflows;
    assert ([r] + rest)[1..] == rest;
  }

  lemma OverflowUnfold(x: Order, r: Order, rest: seq<Order>, now: Seconds)
    requires Remaining(x) > 0
    ensures Expired(r, now) ==> WalkOverflows(x, [r] + rest, now) == WalkOverflows(x, rest, now)
    ensures !Expired(r, now) && !Crosses(BidOf(x, r), AskOf(x, r)) ==> !WalkOverflows(x, [r] + rest, now)
    ensures !Expired(r, now) && Crosses(BidOf(x, r), AskOf(x, r)) ==>
              var x' := if Attempt(x, r).None? then x else After(x, Attempt(x, r).value);
              WalkOverflows(x, [r] + rest, now) == (PairOverflows(x, r) || WalkOverflows(x', rest, now))
  {
    hide FitsU64, Attempt, Crosses, Expired, Filled, PairOverflows;
    assert ([r] + rest)[1..] == rest;
  }

  lemma WalkEnds(x: Order, opposite: seq<Order>, now: Seconds)
    requires opposite == [] || Remaining(x) == 0
    ensures Walk(x, opposite, now) == Walked(x, opposite, [])
    ensures !WalkOverflows(x, opposite, now)
  {
  }

  lemma PrependOne(left: seq<Order>, kept: seq<Order>, matches: seq<Match>, made: seq<Match>, w: Walked)
    ensures Prepend(left + kept, matches + made, w)
         == Prepend(left, matches, Walked(w.incoming, kept + w.left, made + w.matches))
  {
    assert left + kept + w.left == left + (kept + w.left);
    assert matches + made + w.matches == matches + (made + w.matches);
  }

  ghost function Prepend(left: seq<Order>, matches: seq<Match>, w: Walked): Walked {
    Walked(w.incoming, left + w.left, matches + w.matches)
  }
}
