/**
 Request counters with a fixed ring of latencies.  After any number of calls the
 ring holds exactly the most recent `RING_SIZE` durations, and a snapshot reports
 their nearest-rank 95th percentile.
 */
module Latency {
  import opened Sequences

  const RING_SIZE := 1000

  // ----- Order statistics -----

  function CountAtMost(xs: seq<int>, v: int): nat {
    Count(xs, x => x <= v)
  }

  /**
   `v` is the nearest-rank 95th percentile: the least recorded value that at least
   95% of the values do not exceed.
   */
  ghost predicate IsP95(xs: seq<int>, v: int) {
    v in xs && 20 * CountAtMost(xs, v) >= 19 * |xs| && forall w :: w < v ==> 20 * CountAtMost(xs, w) < 19 * |xs|
  }

  ghost predicate Sorted(xs: seq<int>) {
    forall i, j :: 0 <= i < j < |xs| ==> xs[i] <= xs[j]
  }

  lemma {:induction false} CountAtLeastPrefix(xs: seq<int>, k: nat, v: int)
    requires k <= |xs| && forall i :: 0 <= i < k ==> xs[i] <= v
    ensures CountAtMost(xs, v) >= k
  {
    if xs != [] {
      CountAtLeastPrefix(Init(xs), if k < |xs| then k else k - 1, v);
    }
  }

  /** ceil(0.95 n) - 1, clamped into the index range. */
  function P95Index(n: nat): int {
    var idx := (19 * n + 19) / 20 - 1;
    if idx < 0 then 0 else if idx >= n then n - 1 else idx
  }

  /** The element the snapshot picks from the sorted copy is the percentile of the window. */
  lemma P95IndexIsNearestRank(window: seq<int>, sorted: seq<int>)
    requires window != [] && multiset(sorted) == multiset(window) && Sorted(sorted)
    ensures |sorted| == |window| && 0 <= P95Index(|window|) < |window|
    ensures IsP95(window, sorted[P95Index(|window|)])
  {
    SameLength(sorted, window);
    var n, idx := |window|, P95Index(|window|);
    var v := sorted[idx];
    assert v in multiset(window);
    CountAtLeastPrefix(sorted, idx + 1, v);
    CountPermuted(sorted, window, x => x <= v);
    forall w | w < v
      ensures 20 * CountAtMost(window, w) < 19 * n
    {
      CountBelow(sorted, idx, w);
      CountPermuted(sorted, window, x => x <= w);
    }
  }

  lemma {:induction false} CountBelow(xs: seq<int>, k: nat, w: int)
    requires k <= |xs| && Sorted(xs) && (k < |xs| ==> w < xs[k])
    ensures CountAtMost(xs, w) <= k
  {
    if xs != [] {
      CountBelow(Init(xs), if k < |xs| then k else k - 1, w);
    }
  }

  /** There is only one such percentile. */
  lemma P95Unique(xs: seq<int>, v: int, w: int)
    requires IsP95(xs, v) && IsP95(xs, w)
    ensures v == w
  {
  }

  // ----- The ring -----

  /** The last `n` calls, all of them when there were fewer. */
  function LastN(history: seq<int>, n: nat): seq<int> {
    if |history| <= n then history else history[|history| - n..]
  }

  function Total(xs: seq<int>): int {
    if xs == [] then 0 else Total(Init(xs)) + Last(xs)
  }

  /** The window as the ring keeps it: the newest calls before `pos`, the oldest from `pos` on. */
  function Rotated(history: seq<int>, pos: nat): seq<int>
    requires pos < RING_SIZE <= |history|
  {
    var n := |history|;
    history[n - pos..] + history[n - RING_SIZE..n - pos]
  }

  /** The live part of the ring: calls fill it up, and then each overwrites the next slot in turn. */
  function RingImage(history: seq<int>): (image: seq<int>)
    ensures |image| == if |history| < RING_SIZE then |history| else RING_SIZE
  {
    if history == [] then []
    else
      var before, n := RingImage(Init(history)), |history| - 1;
      if n < RING_SIZE then before + [Last(history)] else before[n % RING_SIZE := Last(history)]
  }

  lemma RotatedIsWindow(history: seq<int>, pos: nat)
    requires pos < RING_SIZE <= |history|
    ensures multiset(Rotated(history, pos)) == multiset(LastN(history, RING_SIZE))
    ensures |Rotated(history, pos)| == |LastN(history, RING_SIZE)| == RING_SIZE
  {
    var n := |history|;
    var older, newer := history[n - RING_SIZE..n - pos], history[n - pos..];
    assert LastN(history, RING_SIZE) == older + newer;
  }

  lemma OverwriteFirst(newer: seq<int>, older: seq<int>, d: int)
    requires older != []
    ensures (newer + older)[|newer| := d] == (newer + [d]) + older[1..]
  {
  }

  lemma LongerSlices(history: seq<int>, pos: nat, d: int)
    requires pos < RING_SIZE <= |history|
    ensures var n, longer := |history|, history + [d];
            && longer[n - pos..] == history[n - pos..] + [d]
            && longer[n + 1 - RING_SIZE..n - pos] == history[n - RING_SIZE..n - pos][1..]
  {
  }

  /** Overwriting the oldest call, at `pos`, and moving on is how the rotation of the longer history arises. */
  lemma RotatedStep(history: seq<int>, pos: nat, d: int)
    requires pos < RING_SIZE <= |history|
    ensures Rotated(history + [d], if pos + 1 == RING_SIZE then 0 else pos + 1) == Rotated(history, pos)[pos := d]
  {
    var n, longer := |history|, history + [d];
    var newer, older := history[n - pos..], history[n - RING_SIZE..n - pos];
    LongerSlices(history, pos, d);
    OverwriteFirst(newer, older, d);
    if pos + 1 == RING_SIZE {
      assert older[1..] == [] && longer[n + 1..] == [];
      assert Rotated(longer, 0) == newer + [d];
    } else {
      assert Rotated(longer, pos + 1) == (newer + [d]) + older[1..];
    }
    assert Rotated(history, pos) == newer + older;
    hide Rotated;
  }

  lemma NextPosition(n: nat)
    ensures (n + 1) % RING_SIZE == if n % RING_SIZE + 1 == RING_SIZE then 0 else n % RING_SIZE + 1
  {
  }

  /** What one more call does to the ring's image. */
  lemma {:induction false} RingImageStep(history: seq<int>, d: int)
    ensures var n, image := |history|, RingImage(history);
            && |image| == (if n < RING_SIZE then n else RING_SIZE)
            && RingImage(history + [d]) == if n < RING_SIZE then image + [d] else image[n % RING_SIZE := d]
  {
    assert Init(history + [d]) == history;
  }

  /** The ring once it is full: the window, rotated to where the next call goes. */
  lemma {:induction false} RingImageIsRotated(history: seq<int>)
    ensures RingImage(history)
            == if |history| < RING_SIZE then history else Rotated(history, |history| % RING_SIZE)
  {
    if history == [] {
      assert RingImage([]) == [];
    } else {
      hide RingImage, Rotated;
      var before, d, n := Init(history), Last(history), |history| - 1;
      assert before + [d] == history;
      RingImageIsRotated(before);
      RingImageStep(before, d);
      if n >= RING_SIZE {
        RotatedStep(before, n % RING_SIZE, d);
        NextPosition(n);
      } else if n + 1 == RING_SIZE {
        NotRotated(history);
      }
    }
  }

  lemma NotRotated(history: seq<int>)
    requires |history| == RING_SIZE
    ensures Rotated(history, 0) == history
  {
    assert history[RING_SIZE..] == [];
  }

  /** As a multiset, the ring holds the last `RING_SIZE` calls. */
  lemma {:induction false} RingImageIsWindow(history: seq<int>)
    ensures multiset(RingImage(history)) == multiset(LastN(history, RING_SIZE))
    ensures |RingImage(history)| == |LastN(history, RING_SIZE)|
  {
    RingImageIsRotated(history);
    if |history| >= RING_SIZE {
      RotatedIsWindow(history, |history| % RING_SIZE);
    }
    hide Rotated, RingImage;
  }

  lemma RingPosition(n: nat)
    ensures (n % RING_SIZE + 1) % RING_SIZE == (n + 1) % RING_SIZE
  {
  }

  datatype RequestStats = RequestStats(total: nat, errors4xx: nat, errors5xx: nat,
                                       avgLatencyMs: real, p95LatencyMs: int)

  function ClientErrors(codes: seq<int>): nat {
    Count(codes, c => 400 <= c < 500)
  }

  /** Codes from 500 on, without upper limit. */
  function ServerErrors(codes: seq<int>): nat {
    Count(codes, c => c >= 500)
  }

  lemma OneMoreCall(codes: seq<int>, code: int, durations: seq<int>, d: int)
    ensures ClientErrors(codes + [code]) == ClientErrors(codes) + if 400 <= code < 500 then 1 else 0
    ensures ServerErrors(codes + [code]) == ServerErrors(codes) + if code >= 500 then 1 else 0
    ensures Total(durations + [d]) == Total(durations) + d
  {
    assert Init(codes + [code]) == codes && Init(durations + [d]) == durations;
  }

  class RequestCounters {
    var total: nat
    var err4xx: nat
    var err5xx: nat
    const latencies: array<int>
    var latencyPos: nat
    var latencyLen: nat
    var latencySum: int
    var latencyCount: nat

    /** Every call so far. */
    ghost var codes: seq<int>
    ghost var durations: seq<int>

    ghost predicate Valid()
      reads this, latencies
    {
      && |codes| == |durations| == total == latencyCount
      && err4xx == ClientErrors(codes) && err5xx == ServerErrors(codes)
      && RingHolds(durations)
      && latencySum == Total(durations)
    }

    constructor ()
      ensures Valid() && durations == [] && codes == [] && fresh(latencies)
    {
      total, err4xx, err5xx := 0, 0, 0;
      latencies := new int[RING_SIZE](_ => 0);
      latencyPos, latencyLen, latencySum, latencyCount := 0, 0, 0, 0;
      codes, durations := [], [];
    }

    ghost predicate RingHolds(history: seq<int>)
      reads this`latencyPos, this`latencyLen, latencies
    {
      && latencies.Length == RING_SIZE
      && latencyPos == |history| % RING_SIZE
      && latencyLen == |RingImage(history)| <= RING_SIZE
      && latencies[..latencyLen] == RingImage(history)
    }

    method Push(durationMs: int)
      requires RingHolds(durations)
      modifies this`latencyPos, this`latencyLen, latencies
      ensures RingHolds(durations + [durationMs])
    {
      RingImageStep(durations, durationMs);
      ghost var image := RingImage(durations);
      latencies[latencyPos] := durationMs;
      if latencyLen == RING_SIZE {
        assert latencies[..latencyLen] == image[latencyPos := durationMs];
      } else {
        assert latencies[..latencyLen + 1] == image + [durationMs];
      }
      RingPosition(|durations|);
      latencyPos := (latencyPos + 1) % RING_SIZE;
      if latencyLen < RING_SIZE {
        latencyLen := latencyLen + 1;
      }
      hide RingImage;
    }

    method Record(statusCode: int, durationMs: int)
      requires Valid()
      modifies this, latencies
      ensures Valid()
      ensures codes == old(codes) + [statusCode] && durations == old(durations) + [durationMs]
    {
      hide RingHolds, ClientErrors, ServerErrors, Total;
      OneMoreCall(codes, statusCode, durations, durationMs);
      total := total + 1;
      if 400 <= statusCode < 500 {
        err4xx := err4xx + 1;
      } else if statusCode >= 500 {
        err5xx := err5xx + 1;
      }
      Push(durationMs);
      latencySum := latencySum + durationMs;
      latencyCount := latencyCount + 1;
      codes := codes + [statusCode];
      durations := durations + [durationMs];
    }

    method Snapshot() returns (stats: RequestStats)
      requires Valid()
      ensures stats.total == |codes|
      ensures stats.errors4xx == ClientErrors(codes) && stats.errors5xx == ServerErrors(codes)
      ensures durations != [] ==>
                && stats.avgLatencyMs == Total(durations) as real / |durations| as real
                && IsP95(LastN(durations, RING_SIZE), stats.p95LatencyMs)
      ensures durations == [] ==> stats.avgLatencyMs == 0.0 && stats.p95LatencyMs == 0
    {
      stats := RequestStats(total, err4xx, err5xx, 0.0, 0);
      var n := latencyLen;
      if n > 0 {
        var sorted := Sort(latencies[..n]);
        SortWorks(latencies[..n]);
        RingImageIsWindow(durations);
        P95IndexIsNearestRank(LastN(durations, RING_SIZE), sorted);
        stats := stats.(avgLatencyMs := latencySum as real / latencyCount as real, p95LatencyMs := sorted[P95Index(n)]);
      }
    }
  }

  lemma SnocSorted(xs: seq<int>, x: int)
    requires Sorted(xs) && (xs != [] ==> Last(xs) <= x)
    ensures Sorted(xs + [x])
  {
  }

  /** Puts `x` behind the last element of a sorted sequence that does not exceed it. */
  function InsertInto(ys: seq<int>, x: int): seq<int> {
    if ys != [] && x < Last(ys) then InsertInto(Init(ys), x) + [Last(ys)] else ys + [x]
  }

  /** The library sort; any will do, this one inserts. */
  function Sort(xs: seq<int>): seq<int> {
    if xs == [] then [] else InsertInto(Sort(Init(xs)), Last(xs))
  }

  lemma {:induction false} InsertKeepsSorted(ys: seq<int>, x: int)
    requires Sorted(ys)
    ensures var zs := InsertInto(ys, x);
            Sorted(zs) && zs != [] && Last(zs) == if ys != [] && x < Last(ys) then Last(ys) else x
  {
    if ys != [] && x < Last(ys) {
      InsertKeepsSorted(Init(ys), x);
      assert Init(ys) != [] ==> Last(Init(ys)) <= Last(ys);
      SnocSorted(InsertInto(Init(ys), x), Last(ys));
    } else {
      SnocSorted(ys, x);
    }
    hide Sorted;
  }

  lemma {:induction false} InsertKeepsElements(ys: seq<int>, x: int)
    ensures multiset(InsertInto(ys, x)) == multiset(ys) + multiset{x}
  {
    if ys != [] && x < Last(ys) {
      InsertKeepsElements(Init(ys), x);
      InitLast(ys);
    }
  }

  lemma {:induction false} SortWorks(xs: seq<int>)
    ensures Sorted(Sort(xs)) && multiset(Sort(xs)) == multiset(xs)
  {
    if xs != [] {
      SortWorks(Init(xs));
      InsertKeepsSorted(Sort(Init(xs)), Last(xs));
      InsertKeepsElements(Sort(Init(xs)), Last(xs));
      InitLast(xs);
      hide Sorted, InsertInto;
    }
  }
}
