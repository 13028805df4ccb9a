/**
 * Indexer.loop: one indexing worker. It reads documents from the channel
 * (here a sequence), drops those with an empty id, fills a reused chunk of
 * chunkSize documents and submits it when it is full, updating the shared
 * uint64 counters on success and writing a report row now and then.
 */
module Indexer {
  import opened Wrappers
  import opened Documents

  /** 2^64: the uint64 counters wrap around at this value. */
  const U64: nat := 0x1_0000_0000_0000_0000

  /** uint64 addition (atomic.AddUint64, `+=` on a uint64). */
  function AddU64(a: nat, b: nat): (r: nat)
    ensures r < U64
    ensures a + b < U64 ==> r == a + b
  {
    (a + b) % U64
  }

  /** uint64 subtraction. */
  function SubU64(a: nat, b: nat): (r: nat)
    ensures r < U64
    ensures b <= a < U64 ==> r == a - b
  {
    (a - b) % U64
  }

  /** A report row is written only when the counter is a multiple of this... */
  const ReportEvery: nat := 1000
  /** ...and more than this many nanoseconds (5 * time.Second) have passed since the last one. */
  const ReportInterval: int := 5_000_000_000

  /**
   * The loop's collaborators, for its k-th submission attempt (k from 0):
   * whether IndexOptions returns nil, the latency measured around it (ns),
   * the clock when `time.Since(idx.lastTime)` is evaluated, the clock stored
   * into lastTime after a report, and Document.EstimateSize.
   */
  datatype Env = Env(
    accepts: nat -> bool,
    latency: nat -> nat,
    checkTime: nat -> int,
    resetTime: nat -> int,
    size: Doc -> nat)

  /** Integer inputs of one report row (the elapsed time since the loop started is not kept): the counter, its growth since the last row, the window (ns), the bytes, the total latency. */
  datatype Report = Report(count: nat, sinceLast: nat, window: int, dataSize: nat, totalLatency: nat)

  /** The shared counters. */
  datatype Stats = Stats(counter: nat, lastCount: nat, totalLatency: nat, lastDataSize: nat, lastTime: int)

  predicate StatsValid(s: Stats)
  {
    s.counter < U64 && s.lastCount < U64 && s.totalLatency < U64 && s.lastDataSize < U64
  }

  // ------------------------------------------------------------ specification

  /** The documents kept: those with a non-empty id, in arrival order. */
  function Kept(docs: seq<Doc>): seq<Doc>
  {
    if docs == [] then []
    else Kept(docs[..|docs| - 1]) + (if docs[|docs| - 1].id != "" then [docs[|docs| - 1]] else [])
  }

  /** Every kept document has a non-empty id. */
  lemma {:induction false} KeptIds(docs: seq<Doc>)
    ensures forall d :: d in Kept(docs) ==> d.id != ""
  {
    if docs != [] {
      KeptIds(docs[..|docs| - 1]);
    }
  }

  /** The chunks submitted for a stream of kept documents: consecutive groups of n, a shorter remainder dropped. */
  function Batches(kept: seq<Doc>, n: nat): seq<seq<Doc>>
    requires n >= 1
    decreases |kept|
  {
    if |kept| < n then [] else [kept[..n]] + Batches(kept[n..], n)
  }

  /** The chunks submitted so far and the chunk being filled, after a prefix of the stream. */
  datatype Filling = Filling(batches: seq<seq<Doc>>, pending: seq<Doc>)

  /** The loop's state after the documents docs, step by step: a document with an id is added to the pending chunk, which is submitted once it holds n. */
  function Fill(docs: seq<Doc>, n: nat): Filling
    requires n >= 1
  {
    if docs == [] then Filling([], [])
    else FillStep(Fill(docs[..|docs| - 1], n), docs[|docs| - 1], n)
  }

  /** One document: skipped without an id, otherwise pending; n pending documents make a chunk. */
  function FillStep(f: Filling, d: Doc, n: nat): Filling
  {
    if d.id == "" then f
    else if |f.pending| + 1 == n then Filling(f.batches + [f.pending + [d]], [])
    else Filling(f.batches, f.pending + [d])
  }

  /** The sum of EstimateSize over a chunk, without wrap-around. */
  function ChunkBytes(chunk: seq<Doc>, size: Doc -> nat): nat
  {
    if chunk == [] then 0 else ChunkBytes(chunk[..|chunk| - 1], size) + size(chunk[|chunk| - 1])
  }

  /** What follows the k-th IndexOptions call: the new counters and the report row, if one is written. */
  datatype Step = Step(stats: Stats, report: Option<Report>)

  /**
   * The part of the loop after the k-th IndexOptions call on a full chunk of
   * n documents. A failed call changes nothing; a successful one adds the
   * chunk's size, the latency and n to the counters, and writes a row when
   * the new counter is a multiple of 1000 and more than 5 s have passed,
   * resetting lastCount, lastDataSize and lastTime.
   */
  function AfterSubmit(s: Stats, chunk: seq<Doc>, k: nat, n: nat, env: Env): Step
  {
    if !env.accepts(k) then Step(s, None)
    else
      var dataSize := AddU64(s.lastDataSize, ChunkBytes(chunk, env.size) % U64);
      var totalLatency := AddU64(s.totalLatency, env.latency(k));
      var x := AddU64(s.counter, n);
      if x % ReportEvery == 0 && env.checkTime(k) - s.lastTime > ReportInterval then
        var row := Report(x, SubU64(x, s.lastCount), env.checkTime(k) - s.lastTime, dataSize, totalLatency);
        Step(Stats(x, x, totalLatency, 0, env.resetTime(k)), Some(row))
      else
        Step(Stats(x, s.lastCount, totalLatency, dataSize, s.lastTime), None)
  }

  /**
   * A failed call changes nothing. A successful one adds n to the counter and
   * the latency to the total latency; it writes a row exactly when the new
   * counter is a multiple of 1000 and more than 5 s have passed, and then
   * lastCount is the counter, lastDataSize 0 and lastTime the reset time;
   * otherwise lastDataSize grows by the chunk's size. All in uint64.
   */
  lemma AfterSubmitSpec(s: Stats, chunk: seq<Doc>, k: nat, n: nat, env: Env)
    ensures var r := AfterSubmit(s, chunk, k, n, env);
      (!env.accepts(k) ==> r == Step(s, None)) &&
      (env.accepts(k) ==>
        r.stats.counter == AddU64(s.counter, n) && r.stats.totalLatency == AddU64(s.totalLatency, env.latency(k))) &&
      (r.report.Some? <==>
        env.accepts(k) && AddU64(s.counter, n) % ReportEvery == 0 && env.checkTime(k) - s.lastTime > ReportInterval) &&
      (r.report.Some? ==>
        r.stats.lastCount == r.stats.counter && r.stats.lastDataSize == 0 && r.stats.lastTime == env.resetTime(k) &&
        r.report.value.count == r.stats.counter) &&
      (env.accepts(k) && r.report.None? ==>
        r.stats.lastCount == s.lastCount && r.stats.lastTime == s.lastTime &&
        r.stats.lastDataSize == (s.lastDataSize + ChunkBytes(chunk, env.size)) % U64) &&
      (StatsValid(s) ==> StatsValid(r.stats))
  {
    ModAddRight(s.lastDataSize, ChunkBytes(chunk, env.size));
  }

  /** The counters and the rows after submitting `batches` in order, the j-th being attempt j. */
  datatype Trace = Trace(stats: Stats, reports: seq<Report>)

  function Run(s: Stats, batches: seq<seq<Doc>>, n: nat, env: Env): Trace
    decreases |batches|
  {
    if batches == [] then Trace(s, [])
    else
      var t := Run(s, batches[..|batches| - 1], n, env);
      var st := AfterSubmit(t.stats, batches[|batches| - 1], |batches| - 1, n, env);
      Trace(st.stats, t.reports + (if st.report.Some? then [st.report.value] else []))
  }

  // ------------------------------------------------------------------ lemmas

  lemma RunSnoc(s: Stats, bs: seq<seq<Doc>>, b: seq<Doc>, n: nat, env: Env)
    ensures var t := Run(s, bs, n, env);
      var st := AfterSubmit(t.stats, b, |bs|, n, env);
      Run(s, bs + [b], n, env) == Trace(st.stats, t.reports + if st.report.Some? then [st.report.value] else [])
  {
    assert (bs + [b])[..|bs|] == bs;
  }

  lemma ModAddRight(a: nat, b: nat)
    ensures (a + b % U64) % U64 == (a + b) % U64
  {
    ModMultiple(b / U64, a + b % U64);
    assert b == (b / U64) * U64 + b % U64;
  }

  lemma {:induction false} ModMultiple(q: nat, y: nat)
    ensures (q * U64 + y) % U64 == y % U64
  {
    if q > 0 {
      ModMultiple(q - 1, y);
      assert q * U64 + y == ((q - 1) * U64 + y) + U64;
    }
  }

  /** The kept documents after the last full chunk: what is left in the chunk, never submitted. */
  function Leftover(kept: seq<Doc>, n: nat): (r: nat)
    requires n >= 1
    ensures r < n && r <= |kept|
    decreases |kept|
  {
    if |kept| < n then |kept| else Leftover(kept[n..], n)
  }

  /**
   * Appending one kept document completes a chunk exactly when the chunk
   * held n - 1 documents; the new chunk is the last n kept documents.
   */
  lemma {:induction false} BatchesSnoc(kept: seq<Doc>, d: Doc, n: nat)
    requires n >= 1
    ensures Leftover(kept, n) + 1 == n ==>
      Batches(kept + [d], n) == Batches(kept, n) + [(kept + [d])[|kept| + 1 - n..]] && Leftover(kept + [d], n) == 0
    ensures Leftover(kept, n) + 1 < n ==>
      Batches(kept + [d], n) == Batches(kept, n) && Leftover(kept + [d], n) == Leftover(kept, n) + 1
    decreases |kept|
  {
    var k := kept + [d];
    if |k| < n {
    } else if |kept| < n {
      assert |k| == n;
      assert k[..n] == k && k[n..] == [];
      assert k[|kept| + 1 - n..] == k;
    } else {
      assert k[..n] == kept[..n];
      assert k[n..] == kept[n..] + [d];
      BatchesSnoc(kept[n..], d, n);
      if Leftover(kept, n) + 1 == n {
        assert (kept[n..] + [d])[|kept[n..]| + 1 - n..] == k[|kept| + 1 - n..];
      }
    }
  }

  lemma FillSnoc(docs: seq<Doc>, i: nat, n: nat)
    requires i < |docs| && n >= 1
    ensures Fill(docs[..i + 1], n) == FillStep(Fill(docs[..i], n), docs[i], n)
  {
    assert docs[..i + 1][..i] == docs[..i];
  }

  /**
   * The loop's step-by-step state agrees with the reference: the chunks are
   * Batches(Kept(docs), n) and the pending chunk is the leftover kept documents.
   */
  lemma {:induction false} FillIsBatches(docs: seq<Doc>, n: nat)
    requires n >= 1
    ensures var f := Fill(docs, n); var k := Kept(docs);
      f.batches == Batches(k, n) && |f.pending| == Leftover(k, n) && f.pending == k[|k| - |f.pending|..]
  {
    if docs != [] {
      var pre := docs[..|docs| - 1];
      var d := docs[|docs| - 1];
      FillIsBatches(pre, n);
      var k := Kept(pre);
      var f := Fill(pre, n);
      assert Kept(docs) == k + if d.id != "" then [d] else [];
      if d.id != "" {
        BatchesSnoc(k, d, n);
        var k' := k + [d];
        assert f.pending + [d] == k'[|k'| - |f.pending| - 1..];
        if |f.pending| + 1 == n {
          assert Fill(docs, n) == Filling(f.batches + [f.pending + [d]], []);
          assert Batches(k', n) == Batches(k, n) + [k'[|k| + 1 - n..]];
          assert Leftover(k', n) == 0;
        } else {
          assert Fill(docs, n) == Filling(f.batches, f.pending + [d]);
          assert Batches(k', n) == Batches(k, n);
          assert Leftover(k', n) == |f.pending| + 1;
        }
      } else {
        assert Fill(docs, n) == f && Kept(docs) == k;
      }
    }
  }

  /** The kept documents are the chunks' n documents each, then the leftover. */
  lemma {:induction false} BatchesLength(kept: seq<Doc>, n: nat)
    requires n >= 1
    ensures |kept| == |Batches(kept, n)| * n + Leftover(kept, n)
    decreases |kept|
  {
    if |kept| >= n {
      BatchesLength(kept[n..], n);
      assert |Batches(kept, n)| * n == |Batches(kept[n..], n)| * n + n;
    }
  }

  /** The j-th chunk is the j-th group of n consecutive kept documents, in arrival order. */
  lemma {:induction false} BatchAt(kept: seq<Doc>, n: nat, j: nat)
    requires n >= 1 && j < |Batches(kept, n)|
    ensures (j + 1) * n <= |kept| && Batches(kept, n)[j] == kept[j * n..(j + 1) * n]
    decreases j
  {
    if j > 0 {
      var rest := kept[n..];
      BatchAt(rest, n, j - 1);
      assert j * n == (j - 1) * n + n && (j + 1) * n == j * n + n;
      assert rest[(j - 1) * n..j * n] == kept[j * n..(j + 1) * n];
    }
  }

  /**
   * So there are floor(M' / n) chunks for M' kept documents, and the
   * M' mod n documents after them are never submitted.
   */
  lemma BatchesCount(kept: seq<Doc>, n: nat)
    requires n >= 1
    ensures |Batches(kept, n)| == |kept| / n && Leftover(kept, n) == |kept| % n
  {
    BatchesLength(kept, n);
    FloorDiv(|kept|, n, |Batches(kept, n)|, Leftover(kept, n));
  }

  lemma FloorDiv(a: nat, n: nat, q: nat, r: nat)
    requires n >= 1 && a == q * n + r && r < n
    ensures a / n == q && a % n == r
  {
    var q0, r0 := a / n, a % n;
    assert a == q0 * n + r0;
    if q0 < q {
      MulLe(q0 + 1, q, n);
    } else if q < q0 {
      MulLe(q + 1, q0, n);
    }
  }

  lemma CounterStep(c0: nat, n: nat, a: nat)
    ensures ((c0 + n * a) % U64 + n) % U64 == (c0 + n * (a + 1)) % U64
  {
    ModAddRight(n, c0 + n * a);
    MulSucc(n, a);
  }

  lemma MulSucc(n: nat, a: nat)
    ensures n * (a + 1) == n * a + n
  {
  }

  lemma MulLe(x: nat, y: nat, n: nat)
    requires x <= y
    ensures x * n <= y * n
  {
  }

  /** No submitted chunk holds a document whose id is empty. */
  lemma EmptyIdNeverSubmitted(docs: seq<Doc>, n: nat)
    requires n >= 1
    ensures forall j, i :: 0 <= j < |Batches(Kept(docs), n)| && 0 <= i < |Batches(Kept(docs), n)[j]| ==>
      Batches(Kept(docs), n)[j][i].id != ""
  {
    var kept := Kept(docs);
    forall j, i | 0 <= j < |Batches(kept, n)| && 0 <= i < |Batches(kept, n)[j]|
      ensures Batches(kept, n)[j][i].id != ""
    {
      KeptIds(docs);
      BatchAt(kept, n, j);
      assert Batches(kept, n)[j][i] == kept[j * n + i];
      assert kept[j * n + i] in kept;
    }
  }

  /** The number of successful attempts among the first m. */
  function Accepted(m: nat, env: Env): nat
  {
    if m == 0 then 0 else Accepted(m - 1, env) + (if env.accepts(m - 1) then 1 else 0)
  }

  /** The latency summed over the successful attempts among the first m. */
  function AcceptedLatency(m: nat, env: Env): nat
  {
    if m == 0 then 0 else AcceptedLatency(m - 1, env) + (if env.accepts(m - 1) then env.latency(m - 1) else 0)
  }

  /**
   * Over a run, the counter grows by n for each successful submission and
   * the total latency by each successful submission's latency, modulo 2^64;
   * failed submissions leave both alone.
   */
  lemma {:induction false} RunCounters(s: Stats, batches: seq<seq<Doc>>, n: nat, env: Env)
    requires StatsValid(s)
    ensures StatsValid(Run(s, batches, n, env).stats)
    ensures Run(s, batches, n, env).stats.counter == (s.counter + n * Accepted(|batches|, env)) % U64
    ensures Run(s, batches, n, env).stats.totalLatency == (s.totalLatency + AcceptedLatency(|batches|, env)) % U64
    decreases |batches|
  {
    if batches != [] {
      var m := |batches| - 1;
      var init := batches[..m];
      RunCounters(s, init, n, env);
      var t := Run(s, init, n, env);
      assert Run(s, batches, n, env).stats == AfterSubmit(t.stats, batches[m], m, n, env).stats;
      AfterSubmitSpec(t.stats, batches[m], m, n, env);
      if env.accepts(m) {
        CounterStep(s.counter, n, Accepted(m, env));
        ModAddRight(env.latency(m), s.totalLatency + AcceptedLatency(m, env));
      }
    }
  }

  /** Every report row of a run carries a counter that is a multiple of 1000, written more than 5 s after the previous one. */
  lemma {:induction false} RunReports(s: Stats, batches: seq<seq<Doc>>, n: nat, env: Env)
    ensures forall r :: r in Run(s, batches, n, env).reports ==>
      r.count % ReportEvery == 0 && r.window > ReportInterval
    decreases |batches|
  {
    if batches != [] {
      var m := |batches| - 1;
      RunReports(s, batches[..m], n, env);
      AfterSubmitSpec(Run(s, batches[..m], n, env).stats, batches[m], m, n, env);
    }
  }

  // ------------------------------------------------------------------- state

  class Indexer {
    const chunkSize: nat
    var counter: nat
    var lastCount: nat
    var totalLatency: nat
    var lastDataSize: nat
    var lastTime: int
    /** The chunks handed to IndexOptions, in call order. */
    var calls: seq<seq<Doc>>
    /** The report rows written to the CSV writer. */
    var reports: seq<Report>

    ghost predicate Valid()
      reads this
    {
      chunkSize >= 1 && StatsValid(Counters())
    }

    function Counters(): Stats
      reads this
    {
      Stats(counter, lastCount, totalLatency, lastDataSize, lastTime)
    }

    /** New: zero counters, lastTime set to the current time. */
    constructor (chunkSize: nat, now: int)
      requires chunkSize >= 1
      ensures Valid()
      ensures this.chunkSize == chunkSize && Counters() == Stats(0, 0, 0, 0, now)
      ensures calls == [] && reports == []
    {
      this.chunkSize := chunkSize;
      counter, lastCount, totalLatency, lastDataSize, lastTime := 0, 0, 0, 0, now;
      calls, reports := [], [];
    }

    /** The `for i := range chunk` loop summing EstimateSize over the chunk, in uint64. */
    method ChunkSize(chunk: array<Doc>, size: Doc -> nat) returns (totalSz: nat)
      ensures totalSz == ChunkBytes(chunk[..], size) % U64
    {
      totalSz := 0;
      var j := 0;
      while j < chunk.Length
        invariant 0 <= j <= chunk.Length && totalSz == ChunkBytes(chunk[..j], size) % U64
      {
        assert chunk[..j + 1][..j] == chunk[..j];
        ModAddRight(size(chunk[j]), ChunkBytes(chunk[..j], size));
        totalSz := AddU64(totalSz, size(chunk[j]));
        j := j + 1;
      }
      assert chunk[..j] == chunk[..];
    }

    /** A full chunk: IndexOptions is called (attempt number `attempt`), then the counters are updated on success. */
    method Submit(chunk: array<Doc>, attempt: nat, env: Env)
      requires Valid() && chunk.Length == chunkSize
      modifies this
      ensures Valid()
      ensures calls == old(calls) + [chunk[..]]
      ensures var st := AfterSubmit(old(Counters()), chunk[..], attempt, chunkSize, env);
        Counters() == st.stats && reports == old(reports) + if st.report.Some? then [st.report.value] else []
    {
      ghost var st := AfterSubmit(Counters(), chunk[..], attempt, chunkSize, env);
      calls := calls + [chunk[..]];
      if env.accepts(attempt) {
        var totalSz := ChunkSize(chunk, env.size);
        var dataSize := AddU64(lastDataSize, totalSz);
        lastDataSize := dataSize;
        var latency := AddU64(totalLatency, env.latency(attempt));
        totalLatency := latency;
        var x := AddU64(counter, chunkSize);
        if x % ReportEvery == 0 && env.checkTime(attempt) - lastTime > ReportInterval {
          reports := reports + [Report(x, SubU64(x, lastCount), env.checkTime(attempt) - lastTime, dataSize, latency)];
          lastCount := x;
          lastDataSize := 0;
          lastTime := env.resetTime(attempt);
        }
        counter := x;
      }
    }

    /**
     * The state between two documents, against the documents so far: f
     * holds the chunks submitted and the pending documents, which sit in
     * chunk[..dx]; the calls, counters and rows are those of Run over the
     * chunks submitted, from the counters s0, the rows r0 and the calls c0.
     */
    ghost predicate Tracks(chunk: array<Doc>, dx: nat, attempt: nat, f: Filling, s0: Stats, r0: seq<Report>, c0: seq<seq<Doc>>, env: Env)
      reads this, chunk
    {
      Valid() && chunk.Length == chunkSize && dx < chunkSize && f.pending == chunk[..dx] &&
      attempt == |f.batches| && calls == c0 + f.batches &&
      Counters() == Run(s0, f.batches, chunkSize, env).stats && reports == r0 + Run(s0, f.batches, chunkSize, env).reports
    }

    /**
     * One turn of the loop: a document with an empty id is skipped; any
     * other goes to chunk[dx], and when that fills the chunk, dx returns to 0
     * and the chunk is submitted, whether or not the submission succeeds.
     */
    method Take(chunk: array<Doc>, dx: nat, attempt: nat, doc: Doc, env: Env,
                ghost f: Filling, ghost s0: Stats, ghost r0: seq<Report>, ghost c0: seq<seq<Doc>>)
      returns (dx': nat, attempt': nat)
      requires Tracks(chunk, dx, attempt, f, s0, r0, c0, env)
      modifies this, chunk
      ensures Tracks(chunk, dx', attempt', FillStep(f, doc, chunkSize), s0, r0, c0, env)
    {
      dx', attempt' := dx, attempt;
      if doc.id != "" {
        chunk[dx'] := doc;
        assert chunk[..dx' + 1] == f.pending + [doc];
        dx' := dx' + 1;
        if dx' == chunkSize {
          dx' := 0;
          ghost var full := chunk[..];
          assert full == chunk[..chunkSize];
          Submit(chunk, attempt', env);
          RunSnoc(s0, f.batches, full, chunkSize, env);
          attempt' := attempt' + 1;
        }
      }
    }

    /**
     * loop over the documents in the channel until it is closed: the chunks
     * submitted are Batches(Kept(docs)), and the counters and rows are those
     * of Run over them. The partial chunk left at the end is dropped.
     */
    method Loop(docs: seq<Doc>, env: Env)
      requires Valid()
      modifies this
      ensures Valid()
      ensures calls == old(calls) + Batches(Kept(docs), chunkSize)
      ensures var t := Run(old(Counters()), Batches(Kept(docs), chunkSize), chunkSize, env);
        Counters() == t.stats && reports == old(reports) + t.reports
    {
      var chunk := new Doc[chunkSize](_ => Empty);
      var dx := 0;
      var attempt := 0;
      ghost var s0, r0, c0 := Counters(), reports, calls;
      var i := 0;
      while i < |docs|
        invariant 0 <= i <= |docs|
        invariant Tracks(chunk, dx, attempt, Fill(docs[..i], chunkSize), s0, r0, c0, env)
      {
        FillSnoc(docs, i, chunkSize);
        dx, attempt := Take(chunk, dx, attempt, docs[i], env, Fill(docs[..i], chunkSize), s0, r0, c0);
        i := i + 1;
      }
      assert docs[..i] == docs;
      FillIsBatches(docs, chunkSize);
    }
  }
}
