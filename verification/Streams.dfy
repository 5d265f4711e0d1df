/** Subsequences, and one market's part of a sequence of fills. */
module Streams {
  import opened Pairing
  import opened MessageIds
  import opened Pipeline

  /** `a` is `b` with some elements left out. */
  ghost predicate Sub(a: seq<Match>, b: seq<Match>) {
    if a == [] then true
    else if b == [] then false
    else
      || (a[|a| - 1] == b[|b| - 1] && Sub(a[..|a| - 1], b[..|b| - 1]))
      || Sub(a, b[..|b| - 1])
  }

  lemma SubSnoc(a: seq<Match>, b: seq<Match>, x: Match)
    requires Sub(a, b)
    ensures Sub(a, b + [x]) && Sub(a + [x], b + [x])
  {
    assert (b + [x])[..|b|] == b && (a + [x])[..|a|] == a;
  }

  lemma SubWithout(a: seq<Match>, b: seq<Match>, x: Match)
    requires Sub(a, b + [x]) && x !in a
    ensures Sub(a, b)
  {
    assert (b + [x])[..|b|] == b;
    if a != [] { assert a[|a| - 1] in a; }
  }

  lemma {:induction false} SubMembers(a: seq<Match>, b: seq<Match>)
    requires Sub(a, b)
    ensures forall m :: m in a ==> m in b
  {
    if a != [] {
      assert a == a[..|a| - 1] + [a[|a| - 1]] && b == b[..|b| - 1] + [b[|b| - 1]];
      if Sub(a, b[..|b| - 1]) { SubMembers(a, b[..|b| - 1]); } else { SubMembers(a[..|a| - 1], b[..|b| - 1]); }
    }
  }

  ghost predicate DistinctIds(s: seq<Match>) {
    forall i, j :: 0 <= i < j < |s| ==> MessageId(s[i]) != MessageId(s[j])
  }

  /** A subsequence that has every element of a sequence without repeats is that sequence. */
  lemma {:induction false} SubWithAll(a: seq<Match>, b: seq<Match>)
    requires Sub(a, b) && DistinctIds(b) && forall m :: m in b ==> m in a
    ensures a == b
  {
    hide MessageId;
    if b != [] {
      var last, rest := b[|b| - 1], b[..|b| - 1];
      assert b == rest + [last] && last in b && last !in rest;
      assert a != [];
      if Sub(a, rest) { SubMembers(a, rest); }
      var rest' := a[..|a| - 1];
      assert a == rest' + [last];
      forall m | m in rest ensures m in rest' { assert m in b; }
      SubWithAll(rest', rest);
    }
  }

  function OfMarket(s: seq<Match>, key: string): seq<Match> {
    if s == [] then []
    else
      var m := s[|s| - 1];
      OfMarket(s[..|s| - 1], key) + if KeyOf(m.marketId) == key then [m] else []
  }

  lemma {:induction false} OfMarketAppend(a: seq<Match>, b: seq<Match>, key: string)
    ensures OfMarket(a + b, key) == OfMarket(a, key) + OfMarket(b, key)
  {
    hide KeyOf;
    if b == [] {
      assert a + b == a;
    } else {
      assert (a + b)[..|a + b| - 1] == a + b[..|b| - 1];
      OfMarketAppend(a, b[..|b| - 1], key);
    }
  }

  lemma {:induction false} OfMarketMembers(s: seq<Match>, key: string)
    ensures forall m :: m in OfMarket(s, key) <==> m in s && KeyOf(m.marketId) == key
  {
    hide KeyOf;
    if s != [] {
      assert s == s[..|s| - 1] + [s[|s| - 1]];
      OfMarketMembers(s[..|s| - 1], key);
    }
  }

  lemma {:induction false} OfMarketOnly(s: seq<Match>, key: string)
    ensures (forall m :: m in s ==> KeyOf(m.marketId) == key) ==> OfMarket(s, key) == s
    ensures (forall m :: m in s ==> KeyOf(m.marketId) != key) ==> OfMarket(s, key) == []
  {
    hide KeyOf;
    if s != [] {
      assert s == s[..|s| - 1] + [s[|s| - 1]];
      OfMarketOnly(s[..|s| - 1], key);
    }
  }

  /** One market's part keeps the sequence's order, so it repeats no ID either. */
  lemma {:induction false} OfMarketDistinct(s: seq<Match>, key: string)
    requires DistinctIds(s)
    ensures DistinctIds(OfMarket(s, key))
  {
    hide KeyOf, MessageId;
    if s != [] {
      var n := |s| - 1;
      OfMarketDistinct(s[..n], key);
      OfMarketMembers(s[..n], key);
      var part := OfMarket(s[..n], key);
      forall i | 0 <= i < |part| ensures MessageId(part[i]) != MessageId(s[n]) {
        assert part[i] in part;
        var j :| 0 <= j < n && s[..n][j] == part[i];
        assert s[j] == part[i];
      }
    }
  }
}
