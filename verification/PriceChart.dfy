/** The price chart's resampler: evenly spaced steps with forward fill. */
module PriceChart {
  import opened Orders

  datatype Point = Point(t: int, p: real)

  /** What the chart should show at time `t`: the latest point at or before it, the last in
      input order among points of the same time. */
  function Latest(raw: seq<Point>, t: int): Option<Point> {
    if raw == [] then None
    else
      var before, q := Latest(raw[..|raw| - 1], t), raw[|raw| - 1];
      if q.t <= t && (before.None? || before.value.t <= q.t) then Some(q) else before
  }

  ghost predicate IsLatest(raw: seq<Point>, t: int, i: nat)
    requires i < |raw|
  {
    && raw[i].t <= t
    && forall j :: 0 <= j < |raw| && raw[j].t <= t ==>
         raw[j].t < raw[i].t || (raw[j].t == raw[i].t && j <= i)
  }

  lemma {:induction false} LatestIsLatest(raw: seq<Point>, t: int)
    ensures Latest(raw, t).None? <==> forall j :: 0 <= j < |raw| ==> raw[j].t > t
    ensures Latest(raw, t).Some? ==>
              exists i :: 0 <= i < |raw| && raw[i] == Latest(raw, t).value && IsLatest(raw, t, i)
  {
    if raw != [] {
      var n := |raw| - 1;
      LatestIsLatest(raw[..n], t);
      assert forall j :: 0 <= j < n ==> raw[..n][j] == raw[j];
      var before := Latest(raw[..n], t);
      if raw[n].t <= t && (before.None? || before.value.t <= raw[n].t) {
        if before.Some? {
          var i :| 0 <= i < n && raw[..n][i] == before.value && IsLatest(raw[..n], t, i);
        }
        assert IsLatest(raw, t, n);
      } else if before.Some? {
        var i :| 0 <= i < n && raw[..n][i] == before.value && IsLatest(raw[..n], t, i);
        assert raw[i] == before.value && IsLatest(raw, t, i);
      }
    }
  }

  /** The chart: at every grid time from `t` to `end`, the latest price, if there is one. */
  function Resampled(raw: seq<Point>, step: int, t: int, end: int): seq<Point>
    requires step > 0
    decreases end - t
  {
    if t > end then []
    else (if Latest(raw, t).Some? then [Point(t, Latest(raw, t).value.p)] else [])
         + Resampled(raw, step, t + step, end)
  }

  /** Exactly the grid times that have a point at or before them, each with its price. */
  lemma {:induction false} ResampledPoints(raw: seq<Point>, step: int, t: int, end: int, q: Point)
    requires step > 0
    ensures q in Resampled(raw, step, t, end) <==>
            t <= q.t <= end && (q.t - t) % step == 0 && Latest(raw, q.t).Some? && q.p == Latest(raw, q.t).value.p
    decreases end - t
  {
    if t <= end {
      ResampledPoints(raw, step, t + step, end, q);
      GridStep(q.t - t, step);
    }
  }

  predicate Rises(s: seq<Point>) {
    forall i, j :: 0 <= i < j < |s| ==> s[i].t < s[j].t
  }

  /** The chart's times rise strictly, so each grid time occurs at most once. */
  lemma {:induction false} ResampledRises(raw: seq<Point>, step: int, t: int, end: int)
    requires step > 0
    ensures Rises(Resampled(raw, step, t, end))
    decreases end - t
  {
    hide Latest, Rises;
    if t > end {
      NothingRises();
    } else {
      ResampledRises(raw, step, t + step, end);
      var rest := Resampled(raw, step, t + step, end);
      forall q | q in rest ensures t < q.t { ResampledPoints(raw, step, t + step, end, q); }
      if Latest(raw, t).Some? { EarlierRises(Point(t, Latest(raw, t).value.p), rest); }
      assert [] + rest == rest;
    }
  }

  lemma NothingRises()
    ensures Rises([])
  {
  }

  lemma EarlierRises(first: Point, rest: seq<Point>)
    requires Rises(rest) && forall q :: q in rest ==> first.t < q.t
    ensures Rises([first] + rest)
  {
  }

  lemma GridStep(d: int, step: int)
    requires step > 0
    ensures d % step == (d - step) % step
    ensures 0 <= d < step && d % step == 0 ==> d == 0
  {
    assert d - step == (d / step - 1) * step + d % step;
    Remainder(d - step, step, d / step - 1, d % step);
  }

  lemma Remainder(a: int, step: int, q: int, r: int)
    requires step > 0 && 0 <= r < step && a == q * step + r
    ensures a % step == r
  {
    var k := a / step - q;
    assert k * step == r - a % step;
    assert k >= 1 ==> k * step >= step;
    assert k <= -1 ==> k * step <= -step;
  }

  // ----- the stable sort by time

  /** `q` after every point that is not later. */
  function InsertLast(s: seq<Point>, q: Point): seq<Point> {
    if s == [] || s[|s| - 1].t <= q.t then s + [q]
    else InsertLast(s[..|s| - 1], q) + [s[|s| - 1]]
  }

  function ByTime(raw: seq<Point>): seq<Point> {
    if raw == [] then [] else InsertLast(ByTime(raw[..|raw| - 1]), raw[|raw| - 1])
  }

  predicate TimeSorted(s: seq<Point>) {
    forall i, j :: 0 <= i < j < |s| ==> s[i].t <= s[j].t
  }

  lemma {:induction false} InsertPermutes(s: seq<Point>, q: Point)
    ensures multiset(InsertLast(s, q)) == multiset(s + [q])
  {
    if s != [] && s[|s| - 1].t > q.t {
      InsertPermutes(s[..|s| - 1], q);
      assert s == s[..|s| - 1] + [s[|s| - 1]];
    }
  }

  lemma {:induction false} InsertSorted(s: seq<Point>, q: Point)
    requires TimeSorted(s)
    ensures TimeSorted(InsertLast(s, q))
    ensures forall x :: x in InsertLast(s, q) ==> x == q || x in s
  {
    if s != [] && s[|s| - 1].t > q.t {
      var init, last := s[..|s| - 1], s[|s| - 1];
      assert s == init + [last];
      InsertSorted(init, q);
      assert forall x :: x in init ==> x.t <= last.t;
    }
  }

  lemma {:induction false} InsertKeepsLatest(s: seq<Point>, q: Point, t: int)
    requires TimeSorted(s)
    ensures Latest(InsertLast(s, q), t) == Latest(s + [q], t)
  {
    hide Latest;
    if s != [] && s[|s| - 1].t > q.t {
      var init, last := s[..|s| - 1], s[|s| - 1];
      InsertKeepsLatest(init, q, t);
      LatestIsOneOf(init, t);
      OneMorePoint(init, q, t);
      OneMorePoint(InsertLast(init, q), last, t);
      OneMorePoint(init, last, t);
      OneMorePoint(s, q, t);
      assert s == init + [last] && forall x :: x in init ==> x.t <= last.t;
    }
  }

  lemma OneMorePoint(s: seq<Point>, q: Point, t: int)
    ensures var before := Latest(s, t);
            Latest(s + [q], t) ==
            if q.t <= t && (before.None? || before.value.t <= q.t) then Some(q) else before
  {
    assert (s + [q])[..|s|] == s;
  }

  lemma {:induction false} LatestIsOneOf(s: seq<Point>, t: int)
    ensures Latest(s, t).Some? ==> Latest(s, t).value in s
  {
    if s != [] {
      LatestIsOneOf(s[..|s| - 1], t);
      assert s == s[..|s| - 1] + [s[|s| - 1]];
    }
  }

  /** The sort is a sorted permutation, and does not change what is latest at any time. */
  lemma {:induction false} ByTimeKeepsLatest(raw: seq<Point>, t: int)
    ensures TimeSorted(ByTime(raw)) && multiset(ByTime(raw)) == multiset(raw)
    ensures Latest(ByTime(raw), t) == Latest(raw, t)
  {
    if raw != [] {
      var init, last := raw[..|raw| - 1], raw[|raw| - 1];
      assert raw == init + [last];
      ByTimeKeepsLatest(init, t);
      InsertSorted(ByTime(init), last);
      InsertPermutes(ByTime(init), last);
      InsertKeepsLatest(ByTime(init), last, t);
      assert (ByTime(init) + [last])[..|ByTime(init)|] == ByTime(init);
    }
  }

  /** In a sorted sequence the latest point is the end of the prefix up to `t`. */
  lemma {:induction false} LatestOfSorted(s: seq<Point>, t: int, idx: nat)
    requires TimeSorted(s) && idx <= |s|
    requires forall i :: 0 <= i < idx ==> s[i].t <= t
    requires forall i :: idx <= i < |s| ==> s[i].t > t
    ensures Latest(s, t) == if idx == 0 then None else Some(s[idx - 1])
  {
    if s != [] {
      var n := |s| - 1;
      LatestOfSorted(s[..n], t, if idx <= n then idx else n);
    }
  }

  lemma LatestAtCursor(raw: seq<Point>, sorted: seq<Point>, t: int, idx: nat)
    requires sorted == ByTime(raw) && idx <= |sorted|
    requires forall i :: 0 <= i < idx ==> sorted[i].t <= t
    requires idx < |sorted| ==> sorted[idx].t > t
    ensures Latest(raw, t) == if idx == 0 then None else Some(sorted[idx - 1])
  {
    hide ByTime, Latest;
    ByTimeKeepsLatest(raw, t);
    LatestOfSorted(sorted, t, idx);
  }

  lemma ResampledNext(sofar: seq<Point>, raw: seq<Point>, step: int, t: int, end: int)
    requires step > 0 && t <= end
    ensures sofar + Resampled(raw, step, t, end)
         == sofar + (if Latest(raw, t).Some? then [Point(t, Latest(raw, t).value.p)] else [])
            + Resampled(raw, step, t + step, end)
  {
    hide Latest;
  }

  lemma ResampledEnds(raw: seq<Point>, step: int, t: int, end: int)
    requires step > 0 && t > end
    ensures Resampled(raw, step, t, end) == []
  {
  }

  // ----- the program's form: two pointers over the sorted points

  method BucketPoints(raw: seq<Point>, stepMs: int, fromMs: int, toMs: int) returns (out: seq<Point>)
    ensures stepMs <= 0 || toMs <= fromMs || raw == [] ==> out == raw
    ensures stepMs > 0 && toMs > fromMs && raw != [] ==>
              out == Resampled(raw, stepMs, fromMs / stepMs * stepMs, toMs)
  {
    hide ByTime, Latest, TimeSorted, Resampled;
    if stepMs <= 0 || toMs <= fromMs || |raw| == 0 {
      return raw;
    }
    var sorted := ByTime(raw);
    var start := fromMs / stepMs * stepMs;
    out := [];
    var idx := 0;
    var last: Option<real> := None;
    while idx < |sorted| && sorted[idx].t <= start
      invariant idx <= |sorted|
      invariant forall i :: 0 <= i < idx ==> sorted[i].t <= start
      invariant last == if idx == 0 then None else Some(sorted[idx - 1].p)
    {
      last := Some(sorted[idx].p);
      idx := idx + 1;
    }
    var t := start;
    while t <= toMs
      invariant idx <= |sorted|
      invariant forall i :: 0 <= i < idx ==> sorted[i].t <= t
      invariant last == if idx == 0 then None else Some(sorted[idx - 1].p)
      invariant Resampled(raw, stepMs, start, toMs) == out + Resampled(raw, stepMs, t, toMs)
      decreases toMs - t
    {
      while idx < |sorted| && sorted[idx].t <= t
        invariant idx <= |sorted|
        invariant forall i :: 0 <= i < idx ==> sorted[i].t <= t
        invariant last == if idx == 0 then None else Some(sorted[idx - 1].p)
      {
        last := Some(sorted[idx].p);
        idx := idx + 1;
      }
      LatestAtCursor(raw, sorted, t, idx);
      ghost var sofar := out;
      if last.Some? {
        out := out + [Point(t, last.value)];
      }
      ResampledNext(sofar, raw, stepMs, t, toMs);
      t := t + stepMs;
    }
    ResampledEnds(raw, stepMs, t, toMs);
  }

  // ----- the request chunks

  datatype Chunk = Chunk(from: int, to: int)

  function ChunksOf(from: int, end: int, span: int): seq<Chunk>
    requires span > 0
    decreases end - from
  {
    if from >= end then []
    else [Chunk(from, if from + span <= end then from + span else end)] + ChunksOf(from + span, end, span)
  }

  /** The chunks tile [from, end): they follow one another without gap or overlap, none is
      empty or longer than the span, and all but the last are exactly as long. */
  lemma {:induction false} ChunksTile(from: int, end: int, span: int)
    requires span > 0 && from < end
    ensures var cs := ChunksOf(from, end, span);
            && cs != [] && cs[0].from == from && cs[|cs| - 1].to == end
            && (forall i :: 0 <= i < |cs| ==> cs[i].from < cs[i].to <= cs[i].from + span)
            && (forall i :: 0 < i < |cs| ==> cs[i - 1].to == cs[i].from)
            && forall i :: 0 <= i < |cs| - 1 ==> cs[i].to == cs[i].from + span
    decreases end - from
  {
    var cs := ChunksOf(from, end, span);
    if from + span < end {
      var rest := ChunksOf(from + span, end, span);
      ChunksTile(from + span, end, span);
      assert forall i :: 0 < i < |cs| ==> cs[i] == rest[i - 1];
    }
  }

  method MakeChunks(fromMs: int, toMs: int, chunkSpanMs: int) returns (chunks: seq<Chunk>)
    requires chunkSpanMs > 0
    ensures chunks == ChunksOf(fromMs, toMs, chunkSpanMs)
  {
    chunks := [];
    var start := fromMs;
    while start < toMs
      invariant ChunksOf(fromMs, toMs, chunkSpanMs) == chunks + ChunksOf(start, toMs, chunkSpanMs)
      decreases toMs - start
    {
      chunks := chunks + [Chunk(start, if start + chunkSpanMs <= toMs then start + chunkSpanMs else toMs)];
      start := start + chunkSpanMs;
    }
  }
}
