/** `cast logs` in chunks: when the query for a whole block range fails, the range is cut into
    chunks queried concurrently, and a chunk that fails is retried block by block. */
module ChunkedLogs {
  import opened Common

  type Log = nat

  /** A node: the matching logs of each block, and which of the queries sent to it fail: the one
      for the whole range, the one for the chunk that starts at a block, the one for a block. */
  datatype Provider = Provider(
    logs: nat -> seq<Log>, wholeFails: bool, chunkFails: nat -> bool, blockFails: nat -> bool)

  datatype Chunk = Chunk(start: nat, end: nat)

  datatype Fetched = Fetched(start: nat, logs: seq<Log>)

  /** What the node holds for blocks lo..hi-1. */
  function LogsIn(p: Provider, lo: nat, hi: nat): seq<Log>
    requires lo <= hi
  {
    if lo == hi then [] else LogsIn(p, lo, hi - 1) + p.logs(hi - 1)
  }

  /** The start of the chunk a block falls in. */
  function ChunkOf(from: nat, size: nat, b: nat): nat
    requires size > 0 && from <= b
  {
    from + (b - from) / size * size
  }

  /** A block is lost when its chunk's query fails and so does its own. */
  predicate IsLost(p: Provider, from: nat, size: nat, b: nat)
    requires size > 0 && from <= b
  {
    p.chunkFails(ChunkOf(from, size, b)) && p.blockFails(b)
  }

  /** The logs of blocks lo..hi-1, in block order, without those of lost blocks. */
  function Gathered(p: Provider, from: nat, size: nat, lo: nat, hi: nat): seq<Log>
    requires size > 0 && from <= lo <= hi
    decreases hi
  {
    if lo == hi then []
    else Gathered(p, from, size, lo, hi - 1) + if IsLost(p, from, size, hi - 1) then [] else p.logs(hi - 1)
  }

  lemma {:induction false} GatheredConcat(p: Provider, from: nat, size: nat, lo: nat, mid: nat, hi: nat)
    requires size > 0 && from <= lo <= mid <= hi
    ensures Gathered(p, from, size, lo, hi) == Gathered(p, from, size, lo, mid) + Gathered(p, from, size, mid, hi)
    decreases hi
  {
    if mid < hi {
      GatheredConcat(p, from, size, lo, mid, hi - 1);
      Associative(Gathered(p, from, size, lo, mid), Gathered(p, from, size, mid, hi - 1),
                  if IsLost(p, from, size, hi - 1) then [] else p.logs(hi - 1));
    } else {
      assert Gathered(p, from, size, lo, mid) + [] == Gathered(p, from, size, lo, mid);
    }
  }

  // ---- Cutting the range -----------------------------------------------------------------

  function ChunkEnd(start: nat, size: nat, to: nat): nat {
    if start + size < to then start + size else to
  }

  /** The k-th chunk starts k sizes into the range. */
  ghost predicate AreChunks(chunks: seq<Chunk>, from: nat, to: nat, size: nat) {
    forall k :: 0 <= k < |chunks| ==>
      && chunks[k].start == from + k * size < to
      && chunks[k].end == ChunkEnd(chunks[k].start, size, to)
  }

  /** `(from..to).step_by(size)`, each step cut off at the end of the range. */
  method CutRange(from: nat, to: nat, size: nat) returns (chunks: seq<Chunk>)
    requires size > 0 && to + size < U64
    ensures AreChunks(chunks, from, to, size)
    ensures to <= from + |chunks| * size
  {
    chunks := [];
    var start := from;
    while start < to
      invariant start == from + |chunks| * size
      invariant AreChunks(chunks, from, to, size)
    {
      chunks := chunks + [Chunk(start, ChunkEnd(start, size, to))];
      start := start + size;
    }
  }

  /** The chunks tile the range: each begins where the one before it ended. */
  ghost predicate Tile(chunks: seq<Chunk>, from: nat) {
    forall k :: 0 <= k < |chunks| ==> TilesAt(chunks, from, k)
  }

  ghost predicate TilesAt(chunks: seq<Chunk>, from: nat, k: nat)
    requires k < |chunks|
  {
    && chunks[k].start == (if k == 0 then from else chunks[k - 1].end)
    && from <= chunks[k].start < chunks[k].end
  }

  lemma Multiples(i: nat, j: nat, size: nat)
    ensures (i + 1) * size == i * size + size
    ensures i <= j ==> i * size <= j * size
  {
  }

  /** For every range and chunk size the chunks tile the range, to its end, without gap or overlap. */
  lemma ChunksTile(chunks: seq<Chunk>, from: nat, to: nat, size: nat)
    requires size > 0 && from < to && AreChunks(chunks, from, to, size) && to <= from + |chunks| * size
    ensures Tile(chunks, from) && chunks != [] && Last(chunks).end == to
  {
    forall k | 0 <= k < |chunks|
      ensures TilesAt(chunks, from, k)
    {
      if k > 0 {
        Multiples(k - 1, k, size);
      }
    }
    assert |chunks| == 0 ==> |chunks| * size == 0;
    Multiples(|chunks| - 1, |chunks|, size);
  }

  lemma {:induction false} TileIncreases(chunks: seq<Chunk>, from: nat, i: nat, j: nat)
    requires Tile(chunks, from) && i < j < |chunks|
    ensures chunks[i].start < chunks[j].start
  {
    if i < j - 1 {
      TileIncreases(chunks, from, i, j - 1);
    }
    assert TilesAt(chunks, from, j) && TilesAt(chunks, from, j - 1);
  }

  lemma InChunk(from: nat, size: nat, k: nat, b: nat)
    requires size > 0 && from + k * size <= b < from + k * size + size
    ensures ChunkOf(from, size, b) == from + k * size
  {
    DivideSum(k, size, b - from - k * size);
  }

  lemma DivideSum(k: nat, size: nat, d: nat)
    requires size > 0 && d < size
    ensures (k * size + d) / size == k
  {
    var x := k * size + d;
    assert x / size * size <= x < x / size * size + size;
    SameMultiple(x / size, k, size, x);
  }

  lemma SameMultiple(q: nat, k: nat, size: nat, x: nat)
    requires q * size <= x < q * size + size
    requires k * size <= x < k * size + size
    ensures q == k
  {
    Multiples(k, q, size);
    Multiples(q, k, size);
    Multiples(k + 1, q, size);
    Multiples(q + 1, k, size);
  }

  // ---- Fetching --------------------------------------------------------------------------

  /** One chunk: the direct query, or the blocks one by one, leaving out those that fail. */
  method FetchChunk(p: Provider, chunk: Chunk, ghost from: nat, ghost size: nat, ghost k: nat)
    returns (fetched: Fetched)
    requires size > 0 && chunk.start == from + k * size <= chunk.end <= chunk.start + size
    ensures fetched == Fetched(chunk.start, Gathered(p, from, size, chunk.start, chunk.end))
  {
    var logs := [];
    if !p.chunkFails(chunk.start) {
      logs := LogsIn(p, chunk.start, chunk.end);
      WholeChunk(p, from, size, k, chunk.start, chunk.end);
    } else {
      for b := chunk.start to chunk.end
        invariant logs == Gathered(p, from, size, chunk.start, b)
      {
        InChunk(from, size, k, b);
        if !p.blockFails(b) {
          logs := logs + p.logs(b);
        }
      }
    }
    fetched := Fetched(chunk.start, logs);
  }

  lemma {:induction false} WholeChunk(p: Provider, from: nat, size: nat, k: nat, start: nat, end: nat)
    requires size > 0 && start == from + k * size && start <= end <= start + size && !p.chunkFails(start)
    ensures Gathered(p, from, size, start, end) == LogsIn(p, start, end)
    decreases end
  {
    if end > start {
      WholeChunk(p, from, size, k, start, end - 1);
      assert ChunkOf(from, size, end - 1) == start by {
        InChunk(from, size, k, end - 1);
      }
    }
  }

  // ---- Merging ---------------------------------------------------------------------------

  function Insert(x: Fetched, s: seq<Fetched>): seq<Fetched> {
    if s == [] || x.start <= s[0].start then [x] + s else [s[0]] + Insert(x, s[1..])
  }

  function SortByStart(s: seq<Fetched>): seq<Fetched> {
    if s == [] then [] else Insert(s[0], SortByStart(s[1..]))
  }

  ghost predicate IsSorted(s: seq<Fetched>) {
    forall i, j :: 0 <= i < j < |s| ==> s[i].start <= s[j].start
  }

  lemma {:induction false} InsertSorts(x: Fetched, s: seq<Fetched>)
    requires IsSorted(s)
    ensures IsSorted(Insert(x, s))
    ensures Insert(x, s) != [] && (Insert(x, s)[0] == x || (s != [] && Insert(x, s)[0] == s[0]))
  {
    if s != [] && x.start > s[0].start {
      var tail := Insert(x, s[1..]);
      InsertSorts(x, s[1..]);
      assert s[1..] != [] ==> s[0].start <= s[1..][0].start;
      assert s[0].start <= tail[0].start;
    }
  }

  lemma {:induction false} InsertAdds(x: Fetched, s: seq<Fetched>)
    ensures multiset(Insert(x, s)) == multiset{x} + multiset(s)
  {
    if s != [] && x.start > s[0].start {
      InsertAdds(x, s[1..]);
      Tail(s);
    }
  }

  lemma {:induction false} SortOk(s: seq<Fetched>)
    ensures IsSorted(SortByStart(s)) && multiset(SortByStart(s)) == multiset(s)
  {
    if s != [] {
      SortOk(s[1..]);
      InsertSorts(s[0], SortByStart(s[1..]));
      InsertAdds(s[0], SortByStart(s[1..]));
      Tail(s);
    }
  }

  ghost predicate IsStrict(s: seq<Fetched>) {
    forall i, j :: 0 <= i < j < |s| ==> s[i].start < s[j].start
  }

  lemma Tail(s: seq<Fetched>)
    requires s != []
    ensures multiset(s) == multiset{s[0]} + multiset(s[1..])
  {
    assert s == [s[0]] + s[1..];
  }

  lemma Cancel(x: Fetched, a: multiset<Fetched>, b: multiset<Fetched>)
    requires multiset{x} + a == multiset{x} + b
    ensures a == b
  {
    assert a == (multiset{x} + a) - multiset{x};
    assert b == (multiset{x} + b) - multiset{x};
  }

  lemma HeadIsFirst(s: seq<Fetched>, x: Fetched)
    requires s != [] && IsSorted(s) && x in multiset(s)
    ensures s[0].start <= x.start
  {
    var i :| 0 <= i < |s| && s[i] == x;
  }

  lemma SameHead(a: seq<Fetched>, b: seq<Fetched>)
    requires IsStrict(a) && IsSorted(b) && a != [] && b != [] && multiset(a) == multiset(b)
    ensures a[0] == b[0]
  {
    Tail(a);
    Tail(b);
    assert a[0] in multiset(b) && b[0] in multiset(a);
    HeadIsFirst(a, b[0]);
    HeadIsFirst(b, a[0]);
    var i :| 0 <= i < |a| && a[i] == b[0];
  }

  /** Sorting recovers the chunk order from any order of arrival. */
  lemma {:induction false} SortedIsUnique(a: seq<Fetched>, b: seq<Fetched>)
    requires IsStrict(a) && IsSorted(b) && multiset(a) == multiset(b)
    ensures a == b
  {
    assert |a| == |multiset(a)| == |multiset(b)| == |b|;
    if a != [] {
      SameHead(a, b);
      Tail(a);
      Tail(b);
      Cancel(a[0], multiset(a[1..]), multiset(b[1..]));
      SortedIsUnique(a[1..], b[1..]);
      assert a == [a[0]] + a[1..] && b == [b[0]] + b[1..];
    }
  }

  lemma SortRecovers(results: seq<Fetched>, arrived: seq<Fetched>)
    requires IsStrict(results) && multiset(arrived) == multiset(results)
    ensures SortByStart(arrived) == results
  {
    SortOk(arrived);
    SortedIsUnique(results, SortByStart(arrived));
  }

  function Joined(results: seq<Fetched>): seq<Log> {
    if results == [] then [] else Joined(DropLast(results)) + Last(results).logs
  }

  ghost predicate IsFetched(p: Provider, from: nat, size: nat, chunk: Chunk, fetched: Fetched)
    requires size > 0
  {
    && from <= chunk.start <= chunk.end
    && fetched == Fetched(chunk.start, Gathered(p, from, size, chunk.start, chunk.end))
  }

  ghost predicate AreFetched(p: Provider, from: nat, size: nat, chunks: seq<Chunk>, results: seq<Fetched>)
    requires size > 0
  {
    |results| == |chunks| && forall k :: 0 <= k < |chunks| ==> IsFetched(p, from, size, chunks[k], results[k])
  }

  lemma {:induction false} JoinedIsGathered(p: Provider, from: nat, size: nat, chunks: seq<Chunk>,
                                            results: seq<Fetched>, n: nat)
    requires size > 0 && Tile(chunks, from) && AreFetched(p, from, size, chunks, results)
    requires 0 < n <= |chunks|
    ensures Joined(results[..n]) == Gathered(p, from, size, from, chunks[n - 1].end)
  {
    var chunk := chunks[n - 1];
    assert TilesAt(chunks, from, n - 1);
    assert IsFetched(p, from, size, chunk, results[n - 1]);
    assert DropLast(results[..n]) == results[..n - 1] && Last(results[..n]) == results[n - 1];
    if n == 1 {
      assert results[..0] == [] && [] + results[0].logs == results[0].logs;
    } else {
      JoinedIsGathered(p, from, size, chunks, results, n - 1);
      GatheredConcat(p, from, size, from, chunk.start, chunk.end);
    }
  }

  method FetchAll(p: Provider, from: nat, to: nat, size: nat, chunks: seq<Chunk>) returns (results: seq<Fetched>)
    requires size > 0 && AreChunks(chunks, from, to, size)
    ensures AreFetched(p, from, size, chunks, results)
  {
    results := [];
    for k := 0 to |chunks|
      invariant |results| == k
      invariant forall i :: 0 <= i < k ==> IsFetched(p, from, size, chunks[i], results[i])
    {
      var fetched := FetchChunk(p, chunks[k], from, size, k);
      results := results + [fetched];
    }
  }

  /** Sort by first block and flatten. */
  method MergeResults(results: seq<Fetched>) returns (logs: seq<Log>)
    ensures logs == Joined(SortByStart(results))
  {
    var sorted := SortByStart(results);
    logs := [];
    for k := 0 to |sorted|
      invariant logs == Joined(sorted[..k])
    {
      assert DropLast(sorted[..k + 1]) == sorted[..k];
      logs := logs + sorted[k].logs;
    }
    assert sorted[..|sorted|] == sorted;
  }

  /** The fallback. `arrival` is the order in which the concurrent responses come back. */
  method GetLogsChunkedConcurrent(p: Provider, from: nat, to: nat, size: nat,
                                  arrival: seq<Fetched> -> seq<Fetched>)
    returns (logs: seq<Log>)
    requires size > 0 && to + size < U64
    requires forall s :: multiset(arrival(s)) == multiset(s)
    ensures logs == if from >= to then [] else Gathered(p, from, size, from, to)
  {
    if from >= to {
      return [];
    }
    var chunks := CutRange(from, to, size);
    var results := FetchAll(p, from, to, size, chunks);
    ChunksTile(chunks, from, to, size);
    MergeInOrder(p, from, size, chunks, results, arrival(results));
    logs := MergeResults(arrival(results));
  }

  lemma FetchedIsStrict(p: Provider, from: nat, size: nat, chunks: seq<Chunk>, results: seq<Fetched>)
    requires size > 0 && Tile(chunks, from) && AreFetched(p, from, size, chunks, results)
    ensures IsStrict(results)
  {
    forall i, j | 0 <= i < j < |results|
      ensures results[i].start < results[j].start
    {
      assert IsFetched(p, from, size, chunks[i], results[i]) && IsFetched(p, from, size, chunks[j], results[j]);
      TileIncreases(chunks, from, i, j);
    }
  }

  lemma MergeInOrder(p: Provider, from: nat, size: nat, chunks: seq<Chunk>, results: seq<Fetched>,
                     arrived: seq<Fetched>)
    requires size > 0 && chunks != [] && Tile(chunks, from) && AreFetched(p, from, size, chunks, results)
    requires multiset(arrived) == multiset(results)
    ensures Joined(SortByStart(arrived)) == Gathered(p, from, size, from, Last(chunks).end)
  {
    assert SortByStart(arrived) == results by {
      FetchedIsStrict(p, from, size, chunks, results);
      SortRecovers(results, arrived);
    }
    JoinedAll(p, from, size, chunks, results);
  }

  lemma JoinedAll(p: Provider, from: nat, size: nat, chunks: seq<Chunk>, results: seq<Fetched>)
    requires size > 0 && chunks != [] && Tile(chunks, from) && AreFetched(p, from, size, chunks, results)
    ensures Joined(results) == Gathered(p, from, size, from, Last(chunks).end)
  {
    JoinedIsGathered(p, from, size, chunks, results, |chunks|);
    assert results[..|chunks|] == results;
  }

  /** The whole-range query first, the chunked fallback if it fails. */
  method GetLogsChunked(p: Provider, from: nat, to: nat, size: nat, arrival: seq<Fetched> -> seq<Fetched>)
    returns (logs: seq<Log>)
    requires size > 0 && to + size < U64
    requires forall s :: multiset(arrival(s)) == multiset(s)
    ensures logs == if !p.wholeFails then (if from <= to then LogsIn(p, from, to + 1) else [])
                    else if from >= to then [] else Gathered(p, from, size, from, to)
  {
    if !p.wholeFails {
      return if from <= to then LogsIn(p, from, to + 1) else [];
    }
    logs := GetLogsChunkedConcurrent(p, from, to, size, arrival);
  }

  lemma {:induction false} NothingLost(p: Provider, from: nat, size: nat, lo: nat, hi: nat)
    requires size > 0 && from <= lo <= hi
    requires forall b :: lo <= b < hi ==> !p.blockFails(b)
    ensures Gathered(p, from, size, lo, hi) == LogsIn(p, lo, hi)
    decreases hi
  {
    if lo < hi {
      NothingLost(p, from, size, lo, hi - 1);
    }
  }

  /** Nothing is lost but the logs of lost blocks, so nothing at all if those have none. */
  lemma {:induction false} GatheredLacksIff(p: Provider, from: nat, size: nat, lo: nat, hi: nat)
    requires size > 0 && from <= lo <= hi
    ensures |Gathered(p, from, size, lo, hi)| <= |LogsIn(p, lo, hi)|
    ensures Gathered(p, from, size, lo, hi) == LogsIn(p, lo, hi) <==>
            forall b :: lo <= b < hi && IsLost(p, from, size, b) ==> p.logs(b) == []
    ensures |Gathered(p, from, size, lo, hi)| == |LogsIn(p, lo, hi)| ==>
            Gathered(p, from, size, lo, hi) == LogsIn(p, lo, hi)
    decreases hi
  {
    if lo < hi {
      GatheredLacksIff(p, from, size, lo, hi - 1);
      var most, all := Gathered(p, from, size, lo, hi - 1), LogsIn(p, lo, hi - 1);
      assert |LogsIn(p, lo, hi)| == |all| + |p.logs(hi - 1)|;
      if IsLost(p, from, size, hi - 1) {
        assert most + [] == most;
        assert p.logs(hi - 1) == [] ==> all + p.logs(hi - 1) == all;
      } else {
        assert most + p.logs(hi - 1) == all + p.logs(hi - 1) ==> |most| == |all|;
      }
    }
  }

  /** The fallback is not the query it falls back from: the query includes block `to`, the chunks
      stop before it. The two agree if and only if neither block `to` nor a lost block has logs. */
  lemma {:induction false} FallbackAgreesIff(p: Provider, from: nat, size: nat, to: nat)
    requires size > 0 && from <= to
    ensures Gathered(p, from, size, from, to) == LogsIn(p, from, to + 1) <==>
            p.logs(to) == [] && forall b :: from <= b < to && IsLost(p, from, size, b) ==> p.logs(b) == []
  {
    GatheredLacksIff(p, from, size, from, to);
    assert |LogsIn(p, from, to + 1)| == |LogsIn(p, from, to)| + |p.logs(to)|;
    if p.logs(to) == [] {
      assert LogsIn(p, from, to) + p.logs(to) == LogsIn(p, from, to);
    }
  }

  /** A node on which every block has a log and no query but the first fails: the fallback misses the
      log of block `to`. */
  lemma LastBlockIsMissed(from: nat, size: nat, to: nat)
    requires size > 0 && from <= to
    ensures var p := Provider(b => [b], true, _ => false, _ => false);
            Gathered(p, from, size, from, to) == LogsIn(p, from, to) != LogsIn(p, from, to + 1)
  {
    var p := Provider(b => [b], true, _ => false, _ => false);
    NothingLost(p, from, size, from, to);
    FallbackAgreesIff(p, from, size, to);
    assert p.logs(to) == [to];
  }

  /** What the node holds for a range is what it holds for its parts, down to single blocks. */
  lemma {:induction false} LogsInParts(p: Provider, lo: nat, mid: nat, hi: nat)
    requires lo <= mid <= hi
    ensures LogsIn(p, lo, hi) == LogsIn(p, lo, mid) + LogsIn(p, mid, hi)
    ensures LogsIn(p, lo, lo + 1) == p.logs(lo) && LogsIn(p, lo, lo) == []
    decreases hi
  {
    assert [] + p.logs(lo) == p.logs(lo);
    if mid < hi {
      LogsInParts(p, lo, mid, hi - 1);
      Associative(LogsIn(p, lo, mid), LogsIn(p, mid, hi - 1), p.logs(hi - 1));
    } else {
      assert LogsIn(p, lo, mid) + [] == LogsIn(p, lo, mid);
    }
  }

  /** A block is lost exactly if both the query of its chunk, which starts a whole number of sizes into the
      range and no more than a size before the block, and its own fail. */
  lemma LostIff(p: Provider, from: nat, size: nat, k: nat, b: nat)
    requires size > 0 && from + k * size <= b < from + k * size + size
    ensures IsLost(p, from, size, b) <==> p.chunkFails(from + k * size) && p.blockFails(b)
  {
    InChunk(from, size, k, b);
  }
}
