/** Anvil's log delivery: the logs of a block that match a filter, pushed one by one to a
    subscription or handed over in batches to a polling filter. */
module LogDelivery {
  import opened Common

  type Hash = nat
  type Address = nat

  datatype RawLog = RawLog(address: Address, topics: seq<nat>, data: seq<nat>)

  type Receipt = seq<RawLog>

  datatype Block = Block(hash: Hash, number: nat, timestamp: nat, transactions: seq<Hash>)

  datatype Log = Log(
    inner: RawLog, blockHash: Hash, blockNumber: nat, transactionHash: Hash, transactionIndex: nat,
    logIndex: nat, blockTimestamp: nat)

  /** What a filter asks of a log; the tests themselves belong to the RPC types library. */
  datatype Criteria = Criteria(
    range: nat -> bool, hash: Hash -> bool, address: Address -> bool, topics: seq<nat> -> bool)

  datatype FilteredParams = FilteredParams(filter: Option<Criteria>)

  /** What the node's storage holds under each block hash. */
  datatype Storage = Storage(blocks: map<Hash, Block>, receipts: map<Hash, seq<Receipt>>)

  const U32: nat := 0x1_0000_0000

  // ---- Filtering one block ---------------------------------------------------------------

  predicate AddLog(block: Block, log: RawLog, params: FilteredParams) {
    params.filter.Some? ==>
      var criteria := params.filter.value;
      criteria.range(block.number) && criteria.hash(block.hash) && criteria.address(log.address) &&
      criteria.topics(log.topics)
  }

  /** The logs of all receipts, in order, each with the index of its receipt. */
  datatype Placed = Placed(log: RawLog, receipt: nat)

  function PlacedIn(receipt: Receipt, index: nat): (placed: seq<Placed>)
    ensures |placed| == |receipt|
  {
    seq(|receipt|, j requires 0 <= j < |receipt| => Placed(receipt[j], index))
  }

  function AllLogs(receipts: seq<Receipt>): seq<Placed> {
    if receipts == [] then []
    else AllLogs(DropLast(receipts)) + PlacedIn(Last(receipts), |receipts| - 1)
  }

  function Entry(block: Block, placed: Placed, position: nat): Log
    requires placed.receipt < |block.transactions|
  {
    Log(placed.log, block.hash, block.number, block.transactions[placed.receipt], placed.receipt, position % U32,
        block.timestamp)
  }

  /** The positions in the block-wide list that match the filter, in order. */
  function Matching(block: Block, logs: seq<Placed>, params: FilteredParams): seq<nat> {
    if logs == [] then []
    else Matching(block, DropLast(logs), params) +
         (if AddLog(block, Last(logs).log, params) then [|logs| - 1] else [])
  }

  ghost predicate InRange(block: Block, logs: seq<Placed>) {
    forall i :: 0 <= i < |logs| ==> logs[i].receipt < |block.transactions|
  }

  function Filtered(block: Block, logs: seq<Placed>, params: FilteredParams): seq<Log>
    requires InRange(block, logs)
  {
    if logs == [] then []
    else Filtered(block, DropLast(logs), params) +
         (if AddLog(block, Last(logs).log, params) then [Entry(block, Last(logs), |logs| - 1)] else [])
  }

  lemma {:induction false} AllLogsInRange(block: Block, receipts: seq<Receipt>)
    requires |receipts| <= |block.transactions|
    ensures InRange(block, AllLogs(receipts))
  {
    if receipts != [] {
      AllLogsInRange(block, DropLast(receipts));
    }
  }

  function FilterOf(block: Block, receipts: seq<Receipt>, params: FilteredParams): seq<Log>
    requires |receipts| <= |block.transactions|
  {
    AllLogsInRange(block, receipts);
    Filtered(block, AllLogs(receipts), params)
  }

  lemma FilteredSnoc(block: Block, logs: seq<Placed>, placed: Placed, params: FilteredParams)
    requires InRange(block, logs) && placed.receipt < |block.transactions|
    ensures InRange(block, logs + [placed])
    ensures Filtered(block, logs + [placed], params) ==
            if AddLog(block, placed.log, params) then Filtered(block, logs, params) + [Entry(block, placed, |logs|)]
            else Filtered(block, logs, params)
  {
    assert DropLast(logs + [placed]) == logs;
  }

  lemma NextPlaced(block: Block, before: seq<Placed>, placed: seq<Placed>, j: nat, params: FilteredParams)
    requires j < |placed| && placed[j].receipt < |block.transactions| && InRange(block, before + placed[..j])
    ensures InRange(block, before + placed[..j + 1])
    ensures Filtered(block, before + placed[..j + 1], params) ==
            if AddLog(block, placed[j].log, params)
            then Filtered(block, before + placed[..j], params) + [Entry(block, placed[j], |before| + j)]
            else Filtered(block, before + placed[..j], params)
  {
    assert before + placed[..j + 1] == (before + placed[..j]) + [placed[j]];
    FilteredSnoc(block, before + placed[..j], placed[j], params);
  }

  lemma CountOne(n: nat)
    ensures (n % U32 + 1) % U32 == (n + 1) % U32
  {
  }

  /** The loop of `filter_logs` over receipts; every log counts, matching or not. */
  method FilterLogs(block: Block, receipts: seq<Receipt>, params: FilteredParams) returns (logs: seq<Log>)
    requires |receipts| <= |block.transactions|
    ensures logs == FilterOf(block, receipts, params)
  {
    logs := [];
    var logIndex := 0;
    for i := 0 to |receipts|
      invariant logIndex == |AllLogs(receipts[..i])| % U32
      invariant InRange(block, AllLogs(receipts[..i]))
      invariant logs == Filtered(block, AllLogs(receipts[..i]), params)
    {
      assert DropLast(receipts[..i + 1]) == receipts[..i];
      logs, logIndex := FilterReceipt(block, receipts[i], i, params, logs, logIndex, AllLogs(receipts[..i]));
    }
    assert receipts[..|receipts|] == receipts;
  }

  /** The inner loop, over the logs of one receipt. */
  method FilterReceipt(block: Block, receipt: Receipt, index: nat, params: FilteredParams, logs: seq<Log>,
                       logIndex: nat, ghost before: seq<Placed>)
    returns (logs': seq<Log>, logIndex': nat)
    requires index < |block.transactions| && InRange(block, before)
    requires logIndex == |before| % U32 && logs == Filtered(block, before, params)
    ensures InRange(block, before + PlacedIn(receipt, index))
    ensures logIndex' == |before + PlacedIn(receipt, index)| % U32
    ensures logs' == Filtered(block, before + PlacedIn(receipt, index), params)
  {
    logs', logIndex' := logs, logIndex;
    var transactionHash := block.transactions[index];
    ghost var placed := PlacedIn(receipt, index);
    assert before + placed[..0] == before;
    for j := 0 to |receipt|
      invariant logIndex' == (|before| + j) % U32
      invariant InRange(block, before + placed[..j])
      invariant logs' == Filtered(block, before + placed[..j], params)
    {
      var log := receipt[j];
      NextPlaced(block, before, placed, j, params);
      if AddLog(block, log, params) {
        logs' := logs' + [Log(log, block.hash, block.number, transactionHash, index, logIndex', block.timestamp)];
      }
      assert logs' == Filtered(block, before + placed[..j + 1], params);
      logIndex' := (logIndex' + 1) % U32;
      assert logIndex' == (|before| + (j + 1)) % U32 by {
        CountOne(|before| + j);
      }
    }
    assert placed[..|placed|] == placed;
  }

  lemma {:induction false} MatchingPositions(block: Block, logs: seq<Placed>, params: FilteredParams)
    ensures forall i :: 0 <= i < |Matching(block, logs, params)| ==> Matching(block, logs, params)[i] < |logs|
    ensures forall i, j :: 0 <= i < j < |Matching(block, logs, params)| ==>
      Matching(block, logs, params)[i] < Matching(block, logs, params)[j]
    ensures forall p :: p in Matching(block, logs, params) <==> 0 <= p < |logs| && AddLog(block, logs[p].log, params)
  {
    if logs != [] {
      MatchingPositions(block, DropLast(logs), params);
    }
  }

  lemma {:induction false} FilteredIsMatching(block: Block, logs: seq<Placed>, params: FilteredParams)
    requires InRange(block, logs)
    ensures |Filtered(block, logs, params)| == |Matching(block, logs, params)|
    ensures forall i :: 0 <= i < |Filtered(block, logs, params)| ==>
      Matching(block, logs, params)[i] < |logs| &&
      Filtered(block, logs, params)[i] ==
      Entry(block, logs[Matching(block, logs, params)[i]], Matching(block, logs, params)[i])
  {
    MatchingPositions(block, logs, params);
    if logs != [] {
      FilteredIsMatching(block, DropLast(logs), params);
      MatchingPositions(block, DropLast(logs), params);
    }
  }

  lemma EntryAt(block: Block, receipts: seq<Receipt>, params: FilteredParams, i: nat)
    requires |receipts| <= |block.transactions|
    requires i < |FilterOf(block, receipts, params)|
    ensures var all, positions := AllLogs(receipts), Matching(block, AllLogs(receipts), params);
            && i < |positions| && positions[i] < |all| && all[positions[i]].receipt < |block.transactions|
            && FilterOf(block, receipts, params)[i] == Entry(block, all[positions[i]], positions[i])
  {
    AllLogsInRange(block, receipts);
    FilteredIsMatching(block, AllLogs(receipts), params);
  }

  /** The block-wide list is the receipts' logs one after the other: those of receipt i come after as many
      logs as the receipts before it hold. */
  lemma {:induction false} AllLogsInOrder(receipts: seq<Receipt>, i: nat, k: nat)
    requires i < |receipts| && k < |receipts[i]|
    ensures |AllLogs(receipts[..i])| + k < |AllLogs(receipts)|
    ensures AllLogs(receipts)[|AllLogs(receipts[..i])| + k] == Placed(receipts[i][k], i)
    ensures |AllLogs(receipts[..i + 1])| == |AllLogs(receipts[..i])| + |receipts[i]|
    ensures |AllLogs(receipts[..0])| == 0
  {
    assert DropLast(receipts[..i + 1]) == receipts[..i] && Last(receipts[..i + 1]) == receipts[i];
    if i < |receipts| - 1 {
      var before := DropLast(receipts);
      AllLogsInOrder(before, i, k);
      assert before[..i] == receipts[..i];
    } else {
      assert receipts[..i] == DropLast(receipts);
    }
  }

  /** What it takes to pass a filter: nothing if there is none, else all four of its tests. */
  predicate Passes(block: Block, log: RawLog, params: FilteredParams) {
    match params.filter
    case None => true
    case Some(c) => c.range(block.number) && c.hash(block.hash) && c.address(log.address) && c.topics(log.topics)
  }

  /** A returned log stands at a position of the block's list. */
  ghost predicate StandsAt(log: Log, block: Block, all: seq<Placed>, p: nat) {
    && p < |all| && all[p] == Placed(log.inner, log.transactionIndex) && log.logIndex == p % U32
    && log.transactionIndex < |block.transactions|
    && log.transactionHash == block.transactions[log.transactionIndex]
  }

  lemma EntryStands(block: Block, receipts: seq<Receipt>, params: FilteredParams, i: nat)
    requires |receipts| <= |block.transactions| && i < |FilterOf(block, receipts, params)|
    ensures var log := FilterOf(block, receipts, params)[i];
            log.blockHash == block.hash && log.blockNumber == block.number && log.blockTimestamp == block.timestamp
    ensures var positions := Matching(block, AllLogs(receipts), params);
            && i < |positions|
            && StandsAt(FilterOf(block, receipts, params)[i], block, AllLogs(receipts), positions[i])
  {
    EntryAt(block, receipts, params, i);
  }

  /** Each returned log passes the filter, is of this block by hash, number and timestamp, and stands in
      the block's list at its log index (in 32 bits), under the receipt and the transaction it names. */
  lemma FilterLogsIsSound(block: Block, receipts: seq<Receipt>, params: FilteredParams, i: nat)
    requires |receipts| <= |block.transactions| && i < |FilterOf(block, receipts, params)|
    ensures var log := FilterOf(block, receipts, params)[i];
            && Passes(block, log.inner, params)
            && log.blockHash == block.hash && log.blockNumber == block.number && log.blockTimestamp == block.timestamp
            && exists p :: StandsAt(log, block, AllLogs(receipts), p)
    ensures var log := FilterOf(block, receipts, params)[i];
            |AllLogs(receipts)| <= U32 ==> StandsAt(log, block, AllLogs(receipts), log.logIndex)
  {
    EntryStands(block, receipts, params, i);
    var p := Matching(block, AllLogs(receipts), params)[i];
    assert AddLog(block, AllLogs(receipts)[p].log, params) by {
      MatchingPositions(block, AllLogs(receipts), params);
      assert p in Matching(block, AllLogs(receipts), params);
    }
  }

  /** Returned logs stand at increasing positions, so their indices increase while 32 bits do. */
  lemma FilterLogsKeepsOrder(block: Block, receipts: seq<Receipt>, params: FilteredParams, i: nat, j: nat)
    requires |receipts| <= |block.transactions| && i < j < |FilterOf(block, receipts, params)|
    ensures var logs := FilterOf(block, receipts, params);
            && (exists p, q :: p < q && StandsAt(logs[i], block, AllLogs(receipts), p)
                                     && StandsAt(logs[j], block, AllLogs(receipts), q))
            && (|AllLogs(receipts)| <= U32 ==> logs[i].logIndex < logs[j].logIndex)
  {
    var positions := Matching(block, AllLogs(receipts), params);
    EntryStands(block, receipts, params, i);
    EntryStands(block, receipts, params, j);
    assert positions[i] < positions[j] by {
      MatchingPositions(block, AllLogs(receipts), params);
    }
  }

  /** Every log of the block that matches the filter is returned, from its own position. */
  lemma FilterLogsIsComplete(block: Block, receipts: seq<Receipt>, params: FilteredParams, p: nat)
    requires |receipts| <= |block.transactions|
    requires p < |AllLogs(receipts)| && Passes(block, AllLogs(receipts)[p].log, params)
    ensures exists i :: 0 <= i < |FilterOf(block, receipts, params)| &&
                        StandsAt(FilterOf(block, receipts, params)[i], block, AllLogs(receipts), p)
  {
    var positions := Matching(block, AllLogs(receipts), params);
    AllLogsInRange(block, receipts);
    MatchingPositions(block, AllLogs(receipts), params);
    FilteredIsMatching(block, AllLogs(receipts), params);
    assert p in positions;
    var i :| 0 <= i < |positions| && positions[i] == p;
    EntryAt(block, receipts, params, i);
    assert StandsAt(FilterOf(block, receipts, params)[i], block, AllLogs(receipts), p);
  }

  // ---- What notifications lead to --------------------------------------------------------

  /** A listener's view of the node: fixed storage, and its filter. */
  datatype Source = Source(storage: Storage, filter: FilteredParams)

  /** `filter_logs` indexes a block's transactions by receipt. */
  ghost predicate WellStored(storage: Storage) {
    forall h :: h in storage.blocks && h in storage.receipts ==>
      |storage.receipts[h]| <= |storage.blocks[h].transactions|
  }

  /** The logs a notification leads to, or None if storage has lost the block or its receipts. */
  function LogsFor(source: Source, h: Hash): Option<seq<Log>>
    requires WellStored(source.storage)
  {
    if h in source.storage.blocks && h in source.storage.receipts then
      Some(FilterOf(source.storage.blocks[h], source.storage.receipts[h], source.filter))
    else None
  }

  /** A notification leads to the logs of the block stored under its hash, filtered with the receipts
      stored under its hash, and to none if either is missing. */
  lemma NotificationLeadsTo(source: Source, h: Hash)
    requires WellStored(source.storage)
    ensures (LogsFor(source, h) == None <==> h !in source.storage.blocks || h !in source.storage.receipts)
    ensures h in source.storage.blocks && h in source.storage.receipts ==>
      LogsFor(source, h) == Some(FilterOf(source.storage.blocks[h], source.storage.receipts[h], source.filter))
  {
  }

  function LogsOrNone(source: Source, h: Hash): seq<Log>
    requires WellStored(source.storage)
  {
    if LogsFor(source, h).Some? then LogsFor(source, h).value else []
  }

  function Emitted(source: Source, hashes: seq<Hash>): seq<Log>
    requires WellStored(source.storage)
  {
    if hashes == [] then [] else Emitted(source, DropLast(hashes)) + LogsOrNone(source, Last(hashes))
  }

  lemma EmittedSnoc(source: Source, hashes: seq<Hash>, h: Hash)
    requires WellStored(source.storage)
    ensures Emitted(source, hashes + [h]) == Emitted(source, hashes) + LogsOrNone(source, h)
  {
    assert DropLast(hashes + [h]) == hashes;
  }

  lemma EmittedPrefix(source: Source, hashes: seq<Hash>, n: nat)
    requires WellStored(source.storage) && n < |hashes|
    ensures hashes[..n + 1] == hashes[..n] + [hashes[n]]
    ensures Emitted(source, hashes[..n + 1]) == Emitted(source, hashes[..n]) + LogsOrNone(source, hashes[n])
  {
    assert hashes[..n + 1] == hashes[..n] + [hashes[n]];
    EmittedSnoc(source, hashes[..n], hashes[n]);
  }

  lemma {:induction false} EmittedConcat(source: Source, a: seq<Hash>, b: seq<Hash>)
    requires WellStored(source.storage)
    ensures Emitted(source, a + b) == Emitted(source, a) + Emitted(source, b)
  {
    if b == [] {
      assert a + b == a;
    } else {
      EmittedConcat(source, a, DropLast(b));
      calc {
        Emitted(source, a + b);
        { assert DropLast(a + b) == a + DropLast(b) && Last(a + b) == Last(b); }
        Emitted(source, a + DropLast(b)) + LogsOrNone(source, Last(b));
        (Emitted(source, a) + Emitted(source, DropLast(b))) + LogsOrNone(source, Last(b));
        { Associative(Emitted(source, a), Emitted(source, DropLast(b)), LogsOrNone(source, Last(b))); }
        Emitted(source, a) + Emitted(source, b);
      }
    }
  }

  // ---- The push subscription -------------------------------------------------------------

  datatype Answer = Deliver(log: Log) | Ended | Pending

  /** `channel` holds the notifications not yet read; `read` and `delivered` are what has been read
      from it and handed out so far. */
  datatype Subscription = Subscription(
    channel: seq<Hash>, closed: bool, queued: seq<Log>, read: seq<Hash>, delivered: seq<Log>)

  datatype Response = Response(sub: Subscription, answer: Answer)

  function Deliver1(s: Subscription): Response
    requires s.queued != []
  {
    Response(s.(queued := s.queued[1..], delivered := s.delivered + [s.queued[0]]), Deliver(s.queued[0]))
  }

  function Read1(s: Subscription, logs: seq<Log>): Subscription
    requires s.channel != []
  {
    s.(channel := s.channel[1..], read := s.read + [s.channel[0]], queued := s.queued + logs)
  }

  function Polled(source: Source, s: Subscription): Response
    requires WellStored(source.storage)
    decreases |s.channel|
  {
    if s.queued != [] then Deliver1(s)
    else if s.channel == [] then Response(s, if s.closed then Ended else Pending)
    else
      match LogsFor(source, s.channel[0])
      case None => Response(Read1(s, []), Pending)
      case Some(logs) =>
        if logs == [] then Polled(source, Read1(s, [])) else Deliver1(Read1(s, logs))
  }

  class LogsSubscription {
    const source: Source
    var blocks: seq<Hash>
    var closed: bool
    var queued: seq<Log>
    ghost var read: seq<Hash>
    ghost var delivered: seq<Log>

    constructor (source: Source)
      ensures this.source == source && View() == Subscription([], false, [], [], [])
    {
      this.source := source;
      blocks, closed, queued, read, delivered := [], false, [], [], [];
    }

    ghost function View(): Subscription
      reads this
    {
      Subscription(blocks, closed, queued, read, delivered)
    }

    method Poll() returns (answer: Answer)
      requires WellStored(source.storage)
      modifies this
      ensures Response(View(), answer) == Polled(source, old(View()))
    {
      while true
        invariant Polled(source, View()) == Polled(source, old(View()))
        decreases |blocks|
      {
        if queued != [] {
          var log := queued[0];
          queued := queued[1..];
          delivered := delivered + [log];
          return Deliver(log);
        }
        if blocks == [] {
          return if closed then Ended else Pending;
        }
        var h := blocks[0];
        blocks, read := blocks[1..], read + [blocks[0]];
        if h in source.storage.blocks && h in source.storage.receipts {
          var logs := FilterLogs(source.storage.blocks[h], source.storage.receipts[h], source.filter);
          if logs == [] {
            continue;
          }
          queued := queued + logs;
        }
        if queued == [] {
          return Pending;
        }
      }
    }
  }

  // ---- The polling filter ----------------------------------------------------------------

  datatype Filter = Filter(historic: Option<seq<Log>>, channel: seq<Hash>, read: seq<Hash>, delivered: seq<Log>)

  function Drained(source: Source, f: Filter): Filter
    requires WellStored(source.storage)
  {
    var first := if f.historic.Some? then f.historic.value else [];
    Filter(None, [], f.read + f.channel, f.delivered + (first + Emitted(source, f.channel)))
  }

  lemma DrainOne(source: Source, channel: seq<Hash>, n: nat, first: seq<Log>, read: seq<Hash>)
    requires WellStored(source.storage) && n < |channel|
    ensures channel[n..] != [] && channel[n..][0] == channel[n] && channel[n..][1..] == channel[n + 1..]
    ensures read + channel[..n + 1] == read + channel[..n] + [channel[n]]
    ensures first + Emitted(source, channel[..n + 1]) ==
            first + Emitted(source, channel[..n]) + LogsOrNone(source, channel[n])
    ensures first + Emitted(source, channel[..n]) + [] == first + Emitted(source, channel[..n])
  {
    EmittedPrefix(source, channel, n);
    Associative(first, Emitted(source, channel[..n]), LogsOrNone(source, channel[n]));
    Associative(read, channel[..n], [channel[n]]);
  }

  class LogsFilter {
    const source: Source
    var historic: Option<seq<Log>>
    var blocks: seq<Hash>
    ghost var read: seq<Hash>
    ghost var delivered: seq<Log>

    constructor (source: Source, historic: Option<seq<Log>>)
      ensures this.source == source && View() == Filter(historic, [], [], [])
    {
      this.source, this.historic := source, historic;
      blocks, read, delivered := [], [], [];
    }

    ghost function View(): Filter
      reads this
    {
      Filter(historic, blocks, read, delivered)
    }

    /** Everything since the last poll: the historic logs once, then those of the new blocks. */
    method Poll() returns (logs: seq<Log>)
      requires WellStored(source.storage)
      modifies this
      ensures View() == Drained(source, old(View())) && delivered == old(delivered) + logs
    {
      logs := if historic.Some? then historic.value else [];
      historic := None;
      ghost var channel, first, n := blocks, logs, 0;
      while blocks != []
        invariant n <= |channel| && blocks == channel[n..] && read == old(read) + channel[..n]
        invariant historic == None && delivered == old(delivered)
        invariant logs == first + Emitted(source, channel[..n])
        decreases |blocks|
      {
        var h := blocks[0];
        DrainOne(source, channel, n, first, old(read));
        blocks, read := blocks[1..], read + [blocks[0]];
        if h in source.storage.blocks && h in source.storage.receipts {
          var more := FilterLogs(source.storage.blocks[h], source.storage.receipts[h], source.filter);
          logs := logs + more;
        }
        n := n + 1;
      }
      assert channel[..n] == channel;
      delivered := delivered + logs;
    }
  }

  // ---- Any interleaving ------------------------------------------------------------------

  datatype Event = Arrive(h: Hash) | Close | PollSubscription | PollFilter

  /** One subscription and one filter listening to the same notifications. */
  datatype System = System(sub: Subscription, filter: Filter, arrived: seq<Hash>)

  function Next(source: Source, s: System, e: Event): System
    requires WellStored(source.storage)
  {
    match e
    case Arrive(h) =>
      if s.sub.closed then s
      else System(s.sub.(channel := s.sub.channel + [h]), s.filter.(channel := s.filter.channel + [h]), s.arrived + [h])
    case Close => s.(sub := s.sub.(closed := true))
    case PollSubscription => s.(sub := Polled(source, s.sub).sub)
    case PollFilter => s.(filter := Drained(source, s.filter))
  }

  function Run(source: Source, s: System, events: seq<Event>): System
    requires WellStored(source.storage)
  {
    if events == [] then s else Next(source, Run(source, s, DropLast(events)), Last(events))
  }

  function Start(historic: seq<Log>): System {
    System(Subscription([], false, [], [], []), Filter(Some(historic), [], [], []), [])
  }

  ghost predicate SubscriptionOk(source: Source, s: Subscription, arrived: seq<Hash>)
    requires WellStored(source.storage)
  {
    s.read + s.channel == arrived && s.delivered + s.queued == Emitted(source, s.read)
  }

  ghost predicate FilterOk(source: Source, f: Filter, arrived: seq<Hash>, historic: seq<Log>)
    requires WellStored(source.storage)
  {
    && f.read + f.channel == arrived
    && (if f.historic.Some? then f.historic.value == historic && f.delivered == [] && f.read == []
        else f.delivered == historic + Emitted(source, f.read))
  }

  lemma ReadKeeps(source: Source, s: Subscription, arrived: seq<Hash>)
    requires WellStored(source.storage) && SubscriptionOk(source, s, arrived) && s.channel != []
    ensures SubscriptionOk(source, Read1(s, LogsOrNone(source, s.channel[0])), arrived)
  {
    EmittedSnoc(source, s.read, s.channel[0]);
    Associative(s.delivered, s.queued, LogsOrNone(source, s.channel[0]));
    assert (s.read + [s.channel[0]]) + s.channel[1..] == s.read + s.channel;
  }

  lemma DeliverKeeps(source: Source, s: Subscription, arrived: seq<Hash>)
    requires WellStored(source.storage) && SubscriptionOk(source, s, arrived) && s.queued != []
    ensures SubscriptionOk(source, Deliver1(s).sub, arrived)
  {
    assert (s.delivered + [s.queued[0]]) + s.queued[1..] == s.delivered + s.queued;
  }

  /** A poll loses, repeats and reorders nothing; it ends the stream only when everything that
      will ever arrive has been read and delivered. */
  lemma {:induction false} PollKeeps(source: Source, s: Subscription, arrived: seq<Hash>)
    requires WellStored(source.storage) && SubscriptionOk(source, s, arrived)
    ensures var Response(t, answer) := Polled(source, s);
            && SubscriptionOk(source, t, arrived)
            && (answer.Deliver? ==> t.delivered == s.delivered + [answer.log])
            && (!answer.Deliver? ==> t.delivered == s.delivered && t.queued == [])
            && (answer == Ended ==> t.closed && t.channel == [])
    decreases |s.channel|
  {
    if s.queued != [] {
      DeliverKeeps(source, s, arrived);
    } else if s.channel != [] {
      var logs := LogsOrNone(source, s.channel[0]);
      ReadKeeps(source, s, arrived);
      if logs != [] {
        DeliverKeeps(source, Read1(s, logs), arrived);
      } else if LogsFor(source, s.channel[0]).Some? {
        PollKeeps(source, Read1(s, []), arrived);
      }
    }
  }

  predicate IsSilent(source: Source, h: Hash)
    requires WellStored(source.storage)
  {
    LogsFor(source, h) == Some([])
  }

  /** How many unread notifications, from the front, lead to no logs. */
  function SilentPrefix(source: Source, channel: seq<Hash>): (n: nat)
    requires WellStored(source.storage)
    ensures n <= |channel|
    ensures forall i :: 0 <= i < n ==> IsSilent(source, channel[i])
    ensures n < |channel| ==> !IsSilent(source, channel[n])
  {
    if channel == [] || !IsSilent(source, channel[0]) then 0 else 1 + SilentPrefix(source, channel[1..])
  }

  /** What a poll with nothing queued answers and what it leaves unread. It skips the silent
      notifications; a lost block behind them makes it answer Pending with the rest of the channel
      unread, although the channel was not pending. In no other case does Pending leave any. */
  lemma {:induction false} PendingExactly(source: Source, s: Subscription)
    requires WellStored(source.storage) && s.queued == []
    ensures var n, r := SilentPrefix(source, s.channel), Polled(source, s);
            && (r.answer == Pending <==>
                if n == |s.channel| then !s.closed else LogsFor(source, s.channel[n]).None?)
            && (r.answer == Ended <==> n == |s.channel| && s.closed)
            && r.sub.channel == if n == |s.channel| then [] else s.channel[n + 1..]
    decreases |s.channel|
  {
    if s.channel != [] && IsSilent(source, s.channel[0]) {
      PendingExactly(source, Read1(s, []));
      var n := SilentPrefix(source, s.channel[1..]);
      assert n < |s.channel| - 1 ==>
        s.channel[1..][n] == s.channel[n + 1] && s.channel[1..][n + 1..] == s.channel[n + 2..];
    }
  }

  lemma DrainKeeps(source: Source, f: Filter, arrived: seq<Hash>, historic: seq<Log>)
    requires WellStored(source.storage) && FilterOk(source, f, arrived, historic)
    ensures FilterOk(source, Drained(source, f), arrived, historic)
    ensures Drained(source, f).delivered == historic + Emitted(source, arrived)
  {
    EmittedConcat(source, f.read, f.channel);
    if f.historic.Some? {
      EmptyFirst(historic + Emitted(source, f.channel));
      EmptyFirst(Emitted(source, f.channel));
    } else {
      EmptyFirst(Emitted(source, f.channel));
      Associative(historic, Emitted(source, f.read), Emitted(source, f.channel));
    }
    assert arrived + [] == arrived;
  }

  lemma EmptyFirst(logs: seq<Log>)
    ensures [] + logs == logs
  {
  }

  /** Under every interleaving of arrivals, closing and polls. */
  lemma {:induction false} AlwaysOk(source: Source, historic: seq<Log>, events: seq<Event>)
    requires WellStored(source.storage)
    ensures var s := Run(source, Start(historic), events);
            SubscriptionOk(source, s.sub, s.arrived) && FilterOk(source, s.filter, s.arrived, historic)
  {
    if events != [] {
      AlwaysOk(source, historic, DropLast(events));
      var s := Run(source, Start(historic), DropLast(events));
      match Last(events)
      case Arrive(h) =>
        Associative(s.sub.read, s.sub.channel, [h]);
        Associative(s.filter.read, s.filter.channel, [h]);
      case Close =>
      case PollSubscription => PollKeeps(source, s.sub, s.arrived);
      case PollFilter => DrainKeeps(source, s.filter, s.arrived, historic);
    }
  }

  /** The two ways of listening agree: a filter that has just been polled has handed out its
      historic logs, then what the subscription has delivered and queued, then the logs of what the
      subscription has yet to read. */
  lemma FilterAndSubscriptionAgree(source: Source, historic: seq<Log>, events: seq<Event>)
    requires WellStored(source.storage) && events != [] && Last(events) == PollFilter
    ensures var s := Run(source, Start(historic), events);
            s.filter.delivered ==
            historic + ((s.sub.delivered + s.sub.queued) + Emitted(source, s.sub.channel))
  {
    var before := Run(source, Start(historic), DropLast(events));
    AlwaysOk(source, historic, DropLast(events));
    AlwaysOk(source, historic, events);
    DrainKeeps(source, before.filter, before.arrived, historic);
    EmittedConcat(source, before.sub.read, before.sub.channel);
  }

  /** A subscription stopped behind a lost block, with a notification unread although it leads to a
      log, and no queued log to wake up for. */
  lemma LostBlockStopsPolling(lost: Hash, found: Hash, filter: FilteredParams, storage: Storage)
    requires WellStored(storage) && lost !in storage.blocks && lost != found
    requires LogsFor(Source(storage, filter), found).Some? && LogsFor(Source(storage, filter), found) != Some([])
    ensures var source := Source(storage, filter);
            Polled(source, Subscription([lost, found], false, [], [], [])) ==
            Response(Subscription([found], false, [], [lost], []), Pending)
  {
    assert [lost, found][1..] == [found] && [] + [lost] == [lost];
  }
}
