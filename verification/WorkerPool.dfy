/** The chart's request pool: a few workers share a cursor over the chunks, and each tries its
    chunk up to three times. The workers interleave only at their awaits, so each stretch
    between two awaits is one step. */
module WorkerPool {
  import opened Orders

  const CONCURRENCY: nat := 3
  const MAX_TRIES: nat := 3

  /** A worker is at the top of its loop, waiting for attempt `attempt` at a chunk, sleeping
      after a failed attempt, or finished. */
  datatype Worker = Ready | Fetching(chunk: nat, attempt: nat) | Sleeping(chunk: nat, attempt: nat) | Finished {
    predicate Holds(i: nat) { (Fetching? || Sleeping?) && chunk == i }
  }

  /** `claims` and `tries` are history: how often each chunk was taken and requested. */
  datatype Pool<T> = Pool(next: nat, workers: seq<Worker>, results: seq<Option<T>>, claims: seq<nat>, tries: seq<nat>)

  function StartPool<T>(chunks: nat): Pool<T> {
    Pool(0, seq(if chunks < CONCURRENCY then chunks else CONCURRENCY, _ => Ready),
         seq(chunks, _ => None), seq(chunks, _ => 0), seq(chunks, _ => 0))
  }

  /** What worker `w`'s await brings: its turn, a response, a failure, or the end of a sleep. */
  datatype Wake<T> = Turn(w: nat) | Response(w: nat, value: T) | Failure(w: nat) | SleepOver(w: nat)

  predicate Possible<T>(s: Pool<T>, e: Wake<T>) {
    && e.w < |s.workers|
    && match e
       case Turn(w) => s.workers[w].Ready?
       case Response(w, _) => s.workers[w].Fetching?
       case Failure(w) => s.workers[w].Fetching?
       case SleepOver(w) => s.workers[w].Sleeping?
  }

  predicate WellSized<T>(s: Pool<T>) {
    && |s.claims| == |s.tries| == |s.results| && s.next <= |s.results|
    && forall w :: 0 <= w < |s.workers| ==> s.workers[w].Fetching? || s.workers[w].Sleeping? ==>
         s.workers[w].chunk < s.next
  }

  function Resume<T>(s: Pool<T>, e: Wake<T>): (t: Pool<T>)
    requires WellSized(s) && Possible(s, e)
    ensures WellSized(t) && |t.results| == |s.results| && |t.workers| == |s.workers|
  {
    match e
    case Turn(w) =>
      if s.next < |s.results| then
        s.(next := s.next + 1, workers := s.workers[w := Fetching(s.next, 0)],
           claims := s.claims[s.next := s.claims[s.next] + 1], tries := s.tries[s.next := s.tries[s.next] + 1])
      else s.(workers := s.workers[w := Finished])
    case Response(w, value) =>
      s.(results := s.results[s.workers[w].chunk := Some(value)], workers := s.workers[w := Ready])
    case Failure(w) =>
      if s.workers[w].attempt + 1 == MAX_TRIES then s.(workers := s.workers[w := Ready])
      else s.(workers := s.workers[w := Sleeping(s.workers[w].chunk, s.workers[w].attempt)])
    case SleepOver(w) =>
      var c := s.workers[w].chunk;
      s.(workers := s.workers[w := Fetching(c, s.workers[w].attempt + 1)], tries := s.tries[c := s.tries[c] + 1])
  }

  ghost predicate Held<T>(s: Pool<T>, i: nat) {
    exists w :: 0 <= w < |s.workers| && s.workers[w].Holds(i)
  }

  /** What a worker holding chunk `i` knows of it. */
  ghost predicate HolderInv<T>(s: Pool<T>, i: nat, w: Worker)
    requires WellSized(s) && i < |s.results|
  {
    && s.results[i].None? && s.tries[i] <= MAX_TRIES
    && ((w.Fetching? && s.tries[i] == w.attempt + 1) || (w.Sleeping? && s.tries[i] == w.attempt + 1 < MAX_TRIES))
  }

  /** Chunk `i` was claimed once if the cursor has passed it, and is then with one worker, on a
      try it has not won, or done: answered, or given up after the last try. */
  ghost predicate ChunkInv<T>(s: Pool<T>, i: nat)
    requires WellSized(s) && i < |s.results|
  {
    && s.claims[i] == (if i < s.next then 1 else 0)
    && (forall w, v :: 0 <= w < v < |s.workers| ==> !(s.workers[w].Holds(i) && s.workers[v].Holds(i)))
    && (forall w :: 0 <= w < |s.workers| && s.workers[w].Holds(i) ==> HolderInv(s, i, s.workers[w]))
    && (i >= s.next ==> s.tries[i] == 0 && s.results[i].None?)
    && (i < s.next ==> 0 < s.tries[i] <= MAX_TRIES)
    && (i < s.next && !Held(s, i) ==> s.results[i].Some? || s.tries[i] == MAX_TRIES)
  }

  ghost predicate PoolInv<T>(s: Pool<T>) {
    && WellSized(s)
    && (forall i :: 0 <= i < |s.results| ==> ChunkInv(s, i))
    && (forall w :: 0 <= w < |s.workers| && s.workers[w].Finished? ==> s.next == |s.results|)
  }

  /** A step moves one worker; for a chunk that worker neither holds nor takes, nothing changes. */
  lemma OthersChunk<T>(s: Pool<T>, e: Wake<T>, i: nat)
    requires WellSized(s) && Possible(s, e) && i < |s.results| && ChunkInv(s, i)
    requires !s.workers[e.w].Holds(i) && !Resume(s, e).workers[e.w].Holds(i)
    ensures ChunkInv(Resume(s, e), i)
  {
    var t := Resume(s, e);
    OthersData(s, e, i);
    hide Resume;
    if Held(s, i) {
      var w :| 0 <= w < |s.workers| && s.workers[w].Holds(i);
      assert t.workers[w].Holds(i);
    }
  }

  lemma OthersData<T>(s: Pool<T>, e: Wake<T>, i: nat)
    requires WellSized(s) && Possible(s, e) && i < |s.results|
    requires !s.workers[e.w].Holds(i) && !Resume(s, e).workers[e.w].Holds(i)
    ensures var t := Resume(s, e);
            && t.tries[i] == s.tries[i] && t.results[i] == s.results[i] && t.claims[i] == s.claims[i]
            && (i < t.next <==> i < s.next)
            && forall w :: 0 <= w < |s.workers| && w != e.w ==> t.workers[w] == s.workers[w]
  {
  }

  lemma HeldChunk<T>(s: Pool<T>, e: Wake<T>, i: nat)
    requires WellSized(s) && Possible(s, e) && i < |s.results| && ChunkInv(s, i)
    requires s.workers[e.w].Holds(i) || Resume(s, e).workers[e.w].Holds(i)
    ensures ChunkInv(Resume(s, e), i)
  {
    var t := Resume(s, e);
    assert forall w :: 0 <= w < |s.workers| && w != e.w ==> t.workers[w] == s.workers[w] && !s.workers[w].Holds(i);
    if t.workers[e.w].Holds(i) {
      assert Held(t, i);
      assert HolderInv(t, i, t.workers[e.w]);
    } else {
      assert HolderInv(s, i, s.workers[e.w]);
    }
  }

  lemma StepKeepsChunk<T>(s: Pool<T>, e: Wake<T>, i: nat)
    requires WellSized(s) && Possible(s, e) && i < |s.results| && ChunkInv(s, i)
    ensures ChunkInv(Resume(s, e), i)
  {
    hide ChunkInv;
    if s.workers[e.w].Holds(i) || Resume(s, e).workers[e.w].Holds(i) {
      HeldChunk(s, e, i);
    } else {
      OthersChunk(s, e, i);
    }
  }

  function Play<T>(chunks: nat, wakes: seq<Wake<T>>): Option<Pool<T>> {
    if wakes == [] then Some(StartPool(chunks))
    else
      var s := Play(chunks, wakes[..|wakes| - 1]);
      var e := wakes[|wakes| - 1];
      if s.Some? && WellSized(s.value) && Possible(s.value, e) then Some(Resume(s.value, e)) else None
  }

  lemma {:induction false} PlayInv<T>(chunks: nat, wakes: seq<Wake<T>>)
    ensures Play(chunks, wakes).Some? ==>
              PoolInv(Play(chunks, wakes).value) && |Play(chunks, wakes).value.results| == chunks
              && |Play(chunks, wakes).value.workers| == if chunks < CONCURRENCY then chunks else CONCURRENCY
  {
    if wakes != [] {
      var s, e := Play(chunks, wakes[..|wakes| - 1]), wakes[|wakes| - 1];
      PlayInv(chunks, wakes[..|wakes| - 1]);
      if Play(chunks, wakes).Some? {
        forall i | 0 <= i < chunks ensures ChunkInv(Resume(s.value, e), i) {
          StepKeepsChunk(s.value, e, i);
        }
      }
    }
  }

  /** Under every interleaving, when all workers have finished: each chunk was claimed exactly
      once and requested one to three times, and has its result unless all three failed. */
  lemma PoolCompletes<T>(chunks: nat, wakes: seq<Wake<T>>, i: nat)
    requires i < chunks && Play(chunks, wakes).Some?
    requires forall w :: 0 <= w < |Play(chunks, wakes).value.workers| ==> Play(chunks, wakes).value.workers[w].Finished?
    ensures var s := Play(chunks, wakes).value;
            && |s.claims| == |s.tries| == |s.results| == chunks
            && |s.workers| == (if chunks < 3 then chunks else 3)
            && s.claims[i] == 1 && 1 <= s.tries[i] <= 3
            && (s.results[i].None? ==> s.tries[i] == 3)
  {
    PlayInv(chunks, wakes);
    var s := Play(chunks, wakes).value;
    assert ChunkInv(s, i);
    assert s.workers[0].Finished?;
  }

  /** A chunk is not requested again once it has a result. */
  lemma StopsAtFirstSuccess<T>(chunks: nat, wakes: seq<Wake<T>>, e: Wake<T>, i: nat)
    requires i < chunks && Play(chunks, wakes + [e]).Some? && Play(chunks, wakes).Some?
    requires |Play(chunks, wakes).value.results| == chunks && Play(chunks, wakes).value.results[i].Some?
    ensures var s, t := Play(chunks, wakes).value, Play(chunks, wakes + [e]).value;
            && |s.tries| == |t.tries| == |t.results| == chunks
            && t.tries[i] == s.tries[i] && t.results[i] == s.results[i]
  {
    PlayInv(chunks, wakes);
    assert (wakes + [e])[..|wakes + [e]| - 1] == wakes;
    assert ChunkInv(Play(chunks, wakes).value, i);
  }

  /** The `n`-th wake is a response `value` to a worker that waits for chunk `i`. */
  ghost predicate Answers<T>(chunks: nat, wakes: seq<Wake<T>>, n: nat, i: nat, value: T) {
    && n < |wakes| && Play(chunks, wakes[..n]).Some?
    && wakes[n].Response? && wakes[n].value == value
    && wakes[n].w < |Play(chunks, wakes[..n]).value.workers|
    && var worker := Play(chunks, wakes[..n]).value.workers[wakes[n].w];
       worker.Fetching? && worker.chunk == i
  }

  lemma AnswersBefore<T>(chunks: nat, wakes: seq<Wake<T>>, n: nat, i: nat, value: T)
    requires n < |wakes| - 1
    ensures Answers(chunks, wakes, n, i, value) <==> Answers(chunks, wakes[..|wakes| - 1], n, i, value)
  {
    hide Play;
    assert wakes[..|wakes| - 1][..n] == wakes[..n];
  }

  /** One step stores a value only as the response to the worker of that chunk, and keeps it. */
  lemma StepAnswers<T>(s: Pool<T>, e: Wake<T>, i: nat, value: T)
    requires PoolInv(s) && Possible(s, e) && i < |s.results|
    ensures Resume(s, e).results[i] == Some(value) <==>
            || s.results[i] == Some(value)
            || (e.Response? && e.value == value && s.workers[e.w].Fetching? && s.workers[e.w].chunk == i)
  {
    assert ChunkInv(s, i);
    if s.workers[e.w].Holds(i) { assert HolderInv(s, i, s.workers[e.w]); }
  }

  /** A chunk's result is the value that answered a request for that chunk, and no other. */
  lemma {:induction false} ResultsAreAnswers<T>(chunks: nat, wakes: seq<Wake<T>>, i: nat, value: T)
    requires i < chunks && Play(chunks, wakes).Some?
    ensures |Play(chunks, wakes).value.results| == chunks
    ensures Play(chunks, wakes).value.results[i] == Some(value) <==>
            exists n :: 0 <= n < |wakes| && Answers(chunks, wakes, n, i, value)
  {
    hide Answers, PoolInv;
    PlayInv(chunks, wakes);
    if wakes != [] {
      var n := |wakes| - 1;
      PlayInv(chunks, wakes[..n]);
      ResultsAreAnswers(chunks, wakes[..n], i, value);
      StepAnswers(Play(chunks, wakes[..n]).value, wakes[n], i, value);
      LastAnswers(chunks, wakes, i, value);
      forall k | 0 <= k < n ensures Answers(chunks, wakes, k, i, value) <==> Answers(chunks, wakes[..n], k, i, value) {
        AnswersBefore(chunks, wakes, k, i, value);
      }
    }
  }

  lemma LastAnswers<T>(chunks: nat, wakes: seq<Wake<T>>, i: nat, value: T)
    requires wakes != [] && Play(chunks, wakes).Some?
    ensures var n := |wakes| - 1;
            var s := Play(chunks, wakes[..n]);
            && s.Some? && wakes[n].w < |s.value.workers|
            && (Answers(chunks, wakes, n, i, value) <==>
                  wakes[n].Response? && wakes[n].value == value
                  && s.value.workers[wakes[n].w].Fetching? && s.value.workers[wakes[n].w].chunk == i)
  {
  }

  // ----- every schedule ends

  function Weight(w: Worker): int {
    match w
    case Ready => 1
    case Finished => 0
    case Fetching(_, attempt) => 2 * (MAX_TRIES - attempt)
    case Sleeping(_, attempt) => 2 * (MAX_TRIES - attempt) - 1
  }

  function TotalWeight(ws: seq<Worker>): int {
    if ws == [] then 0 else Weight(ws[0]) + TotalWeight(ws[1..])
  }

  function Work<T>(s: Pool<T>): int {
    7 * (|s.results| - s.next) + TotalWeight(s.workers)
  }

  lemma {:induction false} WeightUpdate(ws: seq<Worker>, w: nat, x: Worker)
    requires w < |ws|
    ensures TotalWeight(ws[w := x]) == TotalWeight(ws) - Weight(ws[w]) + Weight(x)
  {
    if w > 0 {
      WeightUpdate(ws[1..], w - 1, x);
      assert ws[w := x][1..] == ws[1..][w - 1 := x];
    } else {
      assert ws[0 := x][1..] == ws[1..];
    }
  }

  lemma {:induction false} WeightPositive<T>(s: Pool<T>, k: nat)
    requires PoolInv(s) && k <= |s.workers|
    ensures TotalWeight(s.workers[k..]) >= 0
    decreases |s.workers| - k
  {
    if k < |s.workers| {
      WeightPositive(s, k + 1);
      assert s.workers[k..][1..] == s.workers[k + 1..];
      var w := s.workers[k];
      if w.Fetching? || w.Sleeping? {
        assert w.Holds(w.chunk) && ChunkInv(s, w.chunk);
      }
    }
  }

  lemma StepDoesWork<T>(s: Pool<T>, e: Wake<T>)
    requires PoolInv(s) && Possible(s, e)
    ensures Work(Resume(s, e)) < Work(s)
  {
    WeightUpdate(s.workers, e.w, Resume(s, e).workers[e.w]);
    var w := s.workers[e.w];
    if w.Fetching? || w.Sleeping? {
      assert w.Holds(w.chunk) && ChunkInv(s, w.chunk);
    }
  }

  lemma {:induction false} ReadyWeight(n: nat)
    ensures TotalWeight(seq(n, _ => Ready)) == n
  {
    if n > 0 {
      var ws := seq(n, _ => Ready);
      assert ws[1..] == seq(n - 1, _ => Ready);
      ReadyWeight(n - 1);
    }
  }

  /** No schedule has more than seven steps a chunk, and one a worker. */
  lemma {:induction false} SchedulesEnd<T>(chunks: nat, wakes: seq<Wake<T>>)
    requires Play(chunks, wakes).Some?
    ensures 0 <= Work(Play(chunks, wakes).value)
    ensures |wakes| <= 7 * chunks + CONCURRENCY - Work(Play(chunks, wakes).value)
  {
    PlayInv(chunks, wakes);
    var t := Play(chunks, wakes).value;
    WeightPositive(t, 0);
    assert t.workers[0..] == t.workers;
    if wakes == [] {
      ReadyWeight(|t.workers|);
      assert t.workers == seq(|t.workers|, _ => Ready);
    } else {
      SchedulesEnd(chunks, wakes[..|wakes| - 1]);
      PlayInv(chunks, wakes[..|wakes| - 1]);
      StepDoesWork(Play(chunks, wakes[..|wakes| - 1]).value, wakes[|wakes| - 1]);
    }
  }
}
