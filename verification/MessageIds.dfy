/** The deterministic message ID of a fill, as text, and why no two fills share one. */
module MessageIds {
  import opened Orders
  import opened Fills
  import opened Pairing
  import opened Ledger
  import opened Runs
  import opened Guarantees

  function Digit(d: nat): char
    requires d < 10
  {
    "0123456789"[d]
  }

  function Decimal(n: nat): (s: string)
    ensures ColonFree(s) && s != ""
  {
    if n < 10 then [Digit(n)] else Decimal(n / 10) + [Digit(n % 10)]
  }

  predicate ColonFree(s: string) {
    forall i :: 0 <= i < |s| ==> s[i] != ':'
  }

  function MessageId(m: Match): string {
    m.marketId + ":" + m.bid.txId + ":" + m.ask.txId + ":"
      + Decimal(m.bid.sharesFilled) + ":" + Decimal(m.ask.sharesFilled)
  }

  /** The number a text of digits stands for. */
  function Value(s: string): int {
    if s == "" then 0 else 10 * Value(s[..|s| - 1]) + (s[|s| - 1] as int - '0' as int)
  }

  lemma {:induction false} DecimalReadsBack(n: nat)
    ensures Value(Decimal(n)) == n
    ensures forall i :: 0 <= i < |Decimal(n)| ==> '0' <= Decimal(n)[i] <= '9'
    ensures n > 0 ==> Decimal(n)[0] != '0'
  {
    var s := Decimal(n);
    if n >= 10 {
      DecimalReadsBack(n / 10);
      assert s[..|s| - 1] == Decimal(n / 10) && s[|s| - 1] == Digit(n % 10);
    } else {
      assert s[..0] == "";
    }
  }

  /** The first colon splits the text in one way only. */
  lemma ColonSplits(a: string, s: string, b: string, t: string)
    requires ColonFree(a) && ColonFree(b) && a + ":" + s == b + ":" + t
    ensures a == b && s == t
  {
    var u, v := a + ":" + s, b + ":" + t;
    assert u[|a|] == ':' && v[|b|] == ':';
    assert forall i :: 0 <= i < |a| ==> u[i] == a[i];
    assert forall i :: 0 <= i < |b| ==> v[i] == b[i];
    assert |a| == |b|;
    assert u[..|a|] == a && v[..|b|] == b && u[|a| + 1..] == s && v[|b| + 1..] == t;
  }

  /** Market, bid, ask, then the shares each had filled before. */
  lemma MessageIdExample(m: Match)
    requires m.marketId == "m" && m.bid.txId == "b" && m.ask.txId == "a"
    requires m.bid.sharesFilled == 0 && m.ask.sharesFilled == 250
    ensures MessageId(m) == "m:b:a:0:250"
  {
    assert Decimal(2) == "2" && Decimal(25) == "25" && Decimal(250) == "250";
  }

  predicate IdsColonFree(m: Match) {
    ColonFree(m.marketId) && ColonFree(m.bid.txId) && ColonFree(m.ask.txId)
  }

  /** The text determines all five parts. */
  lemma MessageIdInjective(m: Match, n: Match)
    requires IdsColonFree(m) && IdsColonFree(n) && MessageId(m) == MessageId(n)
    ensures m.marketId == n.marketId && m.bid.txId == n.bid.txId && m.ask.txId == n.ask.txId
    ensures m.bid.sharesFilled == n.bid.sharesFilled && m.ask.sharesFilled == n.ask.sharesFilled
  {
    hide ColonFree, FitsU64, Decimal;
    var m4, n4 := Decimal(m.bid.sharesFilled), Decimal(n.bid.sharesFilled);
    var m5, n5 := Decimal(m.ask.sharesFilled), Decimal(n.ask.sharesFilled);
    var m3, n3 := m.ask.txId + ":" + (m4 + ":" + m5), n.ask.txId + ":" + (n4 + ":" + n5);
    var m2, n2 := m.bid.txId + ":" + m3, n.bid.txId + ":" + n3;
    assert MessageId(m) == m.marketId + ":" + m2 && MessageId(n) == n.marketId + ":" + n2;
    ColonSplits(m.marketId, m2, n.marketId, n2);
    ColonSplits(m.bid.txId, m3, n.bid.txId, n3);
    ColonSplits(m.ask.txId, m4 + ":" + m5, n.ask.txId, n4 + ":" + n5);
    ColonSplits(m4, m5, n4, n5);
    DecimalReadsBack(m.bid.sharesFilled);
    DecimalReadsBack(n.bid.sharesFilled);
    DecimalReadsBack(m.ask.sharesFilled);
    DecimalReadsBack(n.ask.sharesFilled);
  }

  ghost predicate DistinctTxIds(placed: seq<Order>) {
    forall i, j :: 0 <= i < j < |placed| ==> placed[i].txId != placed[j].txId
  }

  lemma SameTxSameOrder(placed: seq<Order>, p: Order, q: Order, log: seq<Match>, log': seq<Match>)
    requires DistinctTxIds(placed) && Traced(p, placed, log) && Traced(q, placed, log') && p.txId == q.txId
    ensures p.arrival == q.arrival
  {
    hide FitsU64, TallyOf;
    var a :| a in placed && Advanced(a, p, log);
    var b :| b in placed && Advanced(b, q, log');
  }

  /** Over every run with distinct order ids, no two fills share a message ID: a bid's count of
      filled shares strictly increases from one of its matches to the next. */
  lemma MessageIdsDistinct(ops: seq<Op>, i: nat, j: nat)
    requires Stamped(Placed(ops)) && DistinctTxIds(Placed(ops))
    requires i < j < |Run(ops).log| && IdsColonFree(Run(ops).log[i]) && IdsColonFree(Run(ops).log[j])
    ensures MessageId(Run(ops).log[i]) != MessageId(Run(ops).log[j])
  {
    hide FitsU64, TallyOf, ColonFree, MessageId, Run, Placed, Stamped, LegCollateral;
    RunAccounted(ops);
    var log := Run(ops).log;
    var m, n := log[i], log[j];
    assert m in log && n in log;
    if MessageId(m) == MessageId(n) {
      MessageIdInjective(m, n);
      SameTxSameOrder(Placed(ops), m.bid, n.bid, log[..i], log[..j]);
      StateOnlyGrows(ops, i, j, m.bid, n.bid);
    }
  }
}
