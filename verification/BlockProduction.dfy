/** Anvil's node service: batches from the miner queue up in front of a producer that mines one
    block at a time on a blocking task, which takes the backend along and brings it back. */
module BlockProduction {
  import opened Common

  type Transaction = nat
  type Batch = seq<Transaction>

  /** The chain, as the batches mined into it. */
  datatype Backend = Backend(chain: seq<Batch>)

  datatype Outcome = Outcome(blockNumber: nat, included: Batch)

  /** A spawned mining task; `polled` says that it has been polled, so that its completion wakes
      the service. */
  datatype Task = Task(transactions: Batch, backend: Backend, polled: bool)

  /** `pool` lists the outcomes pruned from the pool, `fed` the batches the miner has returned. */
  datatype State = State(
    idle: Option<Backend>, mining: Option<Task>, queued: seq<Batch>, pool: seq<Outcome>, fed: seq<Batch>)

  datatype Step = Feed(batch: Batch) | Poll(ready: bool)

  function Mine(task: Task): (Outcome, Backend) {
    var chain := task.backend.chain + [task.transactions];
    (Outcome(|chain|, task.transactions), Backend(chain))
  }

  function Spawned(s: State): State {
    if s.queued == [] || s.idle.None? then s
    else s.(idle := None, mining := Some(Task(s.queued[0], s.idle.value, false)), queued := s.queued[1..])
  }

  /** One poll of the producer, and of the task if there is one; `ready` says it has finished. */
  function Polled(s: State, ready: bool): State {
    var t := Spawned(s);
    if t.mining.None? then t
    else if !ready then t.(mining := Some(t.mining.value.(polled := true)))
    else
      var (outcome, backend) := Mine(t.mining.value);
      t.(idle := Some(backend), mining := None, pool := t.pool + [outcome])
  }

  function Next(s: State, step: Step): State {
    match step
    case Feed(batch) => s.(queued := s.queued + [batch], fed := s.fed + [batch])
    case Poll(ready) => Polled(s, ready)
  }

  function Steps(s: State, steps: seq<Step>): State {
    if steps == [] then s else Next(Steps(s, DropLast(steps)), Last(steps))
  }

  function Initial(backend: Backend): State {
    State(Some(backend), None, [], [], [])
  }

  function Batches(outcomes: seq<Outcome>): (batches: seq<Batch>)
    ensures |batches| == |outcomes|
  {
    seq(|outcomes|, i requires 0 <= i < |outcomes| => outcomes[i].included)
  }

  function InFlight(s: State): seq<Batch> {
    if s.mining.Some? then [s.mining.value.transactions] else []
  }

  /** The backend is in one place, and every batch the miner returned is mined, in flight or
      queued, once and in order; blocks are numbered consecutively on top of the first chain. */
  ghost predicate Consistent(s: State, genesis: seq<Batch>) {
    && (s.idle.Some? <==> s.mining.None?)
    && s.fed == Batches(s.pool) + (InFlight(s) + s.queued)
    && (s.idle.Some? ==> s.idle.value.chain == genesis + Batches(s.pool))
    && (s.mining.Some? ==> s.mining.value.backend.chain == genesis + Batches(s.pool))
    && (forall i :: 0 <= i < |s.pool| ==> s.pool[i].blockNumber == |genesis| + i + 1)
  }

  /** Nothing is left to do until a waker fires: a backlog waits only behind a block in progress,
      and the block in progress has the service's waker. */
  predicate Settled(s: State) {
    && (s.queued != [] ==> s.mining.Some?)
    && (s.mining.Some? ==> s.mining.value.polled)
  }

  lemma SpawnKeeps(s: State, genesis: seq<Batch>)
    requires Consistent(s, genesis)
    ensures Consistent(Spawned(s), genesis)
  {
    if s.queued != [] && s.idle.Some? {
      assert [] + s.queued == [s.queued[0]] + s.queued[1..];
    }
  }

  lemma NextKeeps(s: State, step: Step, genesis: seq<Batch>)
    requires Consistent(s, genesis)
    ensures Consistent(Next(s, step), genesis)
    ensures s.pool <= Next(s, step).pool
  {
    if step.Feed? {
      assert Batches(s.pool) + (InFlight(s) + s.queued) + [step.batch] ==
             Batches(s.pool) + (InFlight(s) + (s.queued + [step.batch]));
    } else {
      SpawnKeeps(s, genesis);
      var t, t' := Spawned(s), Next(s, step);
      if t.mining.Some? && step.ready {
        assert Batches(t'.pool) == Batches(t.pool) + InFlight(t);
        Associative(Batches(t.pool), InFlight(t), t.queued);
        Associative(genesis, Batches(t.pool), InFlight(t));
        assert [] + t.queued == t.queued;
      }
    }
  }

  /** In every reachable state, whatever the interleaving of batches and polls. */
  lemma {:induction false} AlwaysConsistent(backend: Backend, steps: seq<Step>)
    ensures Consistent(Steps(Initial(backend), steps), backend.chain)
  {
    if steps == [] {
      assert backend.chain + [] == backend.chain;
    } else {
      AlwaysConsistent(backend, DropLast(steps));
      NextKeeps(Steps(Initial(backend), DropLast(steps)), Last(steps), backend.chain);
    }
  }

  /** What has been handed over and not yet mined, in order. */
  function Waiting(s: State): seq<Batch> {
    InFlight(s) + s.queued
  }

  lemma PollMinesNext(s: State)
    requires (s.idle.Some? <==> s.mining.None?) && Waiting(s) != []
    ensures var t := Polled(s, true);
            && t.idle.Some? && t.mining.None? && t.fed == s.fed
            && Batches(t.pool) == Batches(s.pool) + [Waiting(s)[0]]
            && Waiting(t) == Waiting(s)[1..]
  {
    var t := Spawned(s);
    assert InFlight(t) == [Waiting(s)[0]] && t.queued == Waiting(s)[1..];
    assert [] + t.queued == t.queued;
  }

  /** Progress: polled while its tasks finish, the producer mines the batch in flight and then the
      backlog, one block a poll, first in first out. */
  lemma {:induction false} PollsMineTheBacklog(s: State, steps: seq<Step>)
    requires (s.idle.Some? <==> s.mining.None?) && |steps| <= |Waiting(s)|
    requires forall i :: 0 <= i < |steps| ==> steps[i] == Poll(true)
    ensures var t := Steps(s, steps);
            && (t.idle.Some? <==> t.mining.None?) && t.fed == s.fed
            && Batches(t.pool) == Batches(s.pool) + Waiting(s)[..|steps|]
            && Waiting(t) == Waiting(s)[|steps|..]
  {
    var n, waiting := |steps|, Waiting(s);
    if n == 0 {
      assert waiting[..0] == [] && waiting[0..] == waiting;
      assert Batches(s.pool) + [] == Batches(s.pool);
    } else {
      PollsMineTheBacklog(s, DropLast(steps));
      var t := Steps(s, DropLast(steps));
      assert Waiting(t) == waiting[n - 1..] && Waiting(t) != [];
      assert Steps(s, steps) == Polled(t, true);
      MineOneMore(t, Polled(t, true), Batches(s.pool), waiting, n - 1);
    }
  }

  lemma MineOneMore(t: State, u: State, mined: seq<Batch>, waiting: seq<Batch>, k: nat)
    requires (t.idle.Some? <==> t.mining.None?) && u == Polled(t, true) && k < |waiting|
    requires Batches(t.pool) == mined + waiting[..k] && Waiting(t) == waiting[k..]
    ensures (u.idle.Some? <==> u.mining.None?) && u.fed == t.fed
    ensures Batches(u.pool) == mined + waiting[..k + 1] && Waiting(u) == waiting[k + 1..]
  {
    assert u.idle.Some? && u.mining.None? && u.fed == t.fed
           && Batches(u.pool) == Batches(t.pool) + [waiting[k]] && Waiting(u) == waiting[k..][1..] by {
      PollMinesNext(t);
    }
    OneMore(mined, waiting, k);
  }

  ghost predicate Reaches(s: State, t: State) {
    exists steps :: Steps(s, steps) == t
  }

  lemma ReachesItself(s: State)
    ensures Reaches(s, s)
  {
    assert Steps(s, []) == s;
  }

  lemma ReachesNext(s: State, t: State, step: Step)
    requires Reaches(s, t)
    ensures Reaches(s, Next(t, step))
  {
    var steps :| Steps(s, steps) == t;
    assert DropLast(steps + [step]) == steps;
    assert Steps(s, steps + [step]) == Next(t, step);
  }

  lemma {:induction false} StepsConcat(s: State, a: seq<Step>, b: seq<Step>)
    ensures Steps(s, a + b) == Steps(Steps(s, a), b)
  {
    if b == [] {
      assert a + b == a;
    } else {
      assert DropLast(a + b) == a + DropLast(b) && Last(a + b) == Last(b);
      StepsConcat(s, a, DropLast(b));
    }
  }

  /** Polls of the service compose, so whatever a new service can be polled into is consistent. */
  lemma ReachableIsConsistent(backend: Backend, s: State, t: State)
    requires Reaches(Initial(backend), s) && Reaches(s, t)
    ensures Reaches(Initial(backend), t) && Consistent(t, backend.chain)
  {
    var a :| Steps(Initial(backend), a) == s;
    var b :| Steps(s, b) == t;
    StepsConcat(Initial(backend), a, b);
    AlwaysConsistent(backend, a + b);
  }

  lemma OneMore(base: seq<Batch>, batches: seq<Batch>, k: nat)
    requires k < |batches|
    ensures base + batches[..k + 1] == base + batches[..k] + [batches[k]]
  {
    assert batches[..k + 1] == batches[..k] + [batches[k]];
    Associative(base, batches[..k], [batches[k]]);
  }

  class BlockProducer {
    var idleBackend: Option<Backend>
    var blockMining: Option<Task>
    var queued: seq<Batch>

    constructor (backend: Backend)
      ensures idleBackend == Some(backend) && blockMining == None && queued == []
    {
      idleBackend, blockMining, queued := Some(backend), None, [];
    }

    ghost function View(pool: seq<Outcome>, fed: seq<Batch>): State
      reads this
    {
      State(idleBackend, blockMining, queued, pool, fed)
    }

    /** Start the next block if none is in progress, then poll the block in progress. */
    method PollNext(ready: bool, ghost pool: seq<Outcome>, ghost fed: seq<Batch>) returns (r: Option<Outcome>)
      requires idleBackend.Some? <==> blockMining.None?
      modifies this
      ensures View(if r.Some? then pool + [r.value] else pool, fed) == Polled(old(View(pool, fed)), ready)
      ensures idleBackend.Some? <==> blockMining.None?
      ensures r.None? ==> Settled(View(pool, fed))
      ensures r.Some? ==> ready && idleBackend.Some? && |queued| + 1 == old(|queued| + |InFlight(View([], []))|)
    {
      if queued != [] {
        if idleBackend.Some? {
          var backend := idleBackend.value;
          idleBackend := None;
          var transactions := queued[0];
          queued := queued[1..];
          blockMining := Some(Task(transactions, backend, false));
        }
      }
      if blockMining.Some? {
        var mining := blockMining.value;
        blockMining := None;
        if ready {
          var (outcome, backend) := Mine(mining);
          idleBackend := Some(backend);
          return Some(outcome);
        } else {
          blockMining := Some(mining.(polled := true));
        }
      }
      return None;
    }
  }

  class NodeService {
    var producer: BlockProducer
    var pool: seq<Outcome>
    ghost var fed: seq<Batch>

    constructor (backend: Backend)
      ensures fresh(producer) && View() == Initial(backend)
    {
      producer := new BlockProducer(backend);
      pool, fed := [], [];
    }

    ghost function View(): State
      reads this, producer
    {
      producer.View(pool, fed)
    }

    /** Poll the producer until it is pending, pruning what it mined from the pool. */
    method DriveProducer(ready: nat -> bool, from: nat, ghost start: State) returns (asked: nat)
      requires View().idle.Some? <==> View().mining.None?
      requires Reaches(start, View())
      modifies this, producer
      ensures producer == old(producer) && fed == old(fed)
      ensures View().idle.Some? <==> View().mining.None?
      ensures Reaches(start, View()) && Settled(View())
      ensures (forall i :: ready(i)) ==> View().queued == [] && View().mining.None?
    {
      asked := from;
      while true
        invariant producer == old(producer) && fed == old(fed)
        invariant View().idle.Some? <==> View().mining.None?
        invariant Reaches(start, View())
        decreases |producer.queued| + |InFlight(View())|
      {
        var answer := ready(asked);
        ReachesNext(start, View(), Poll(answer));
        var r := producer.PollNext(answer, pool, fed);
        asked := asked + 1;
        if r.None? {
          return;
        }
        pool := pool + [r.value];
      }
    }

    /** Queue a batch the miner returned. */
    method Feed(batch: Batch, ghost start: State)
      requires Reaches(start, View())
      modifies this, producer
      ensures producer == old(producer) && fed == old(fed) + [batch]
      ensures View() == Next(old(View()), Step.Feed(batch))
      ensures Reaches(start, View())
    {
      ReachesNext(start, View(), Step.Feed(batch));
      producer.queued := producer.queued + [batch];
      fed := fed + [batch];
    }

    /** One poll of the service. `miner` lists the batches the miner hands out before it is
        pending; `ready` answers, in turn, whether the task polled has finished. */
    method PollOnce(miner: seq<Batch>, ready: nat -> bool)
      requires View().idle.Some? <==> View().mining.None?
      modifies this, producer
      ensures producer == old(producer) && fed == old(fed) + miner
      ensures View().idle.Some? <==> View().mining.None?
      ensures Reaches(old(View()), View()) && Settled(View())
      ensures (forall i :: ready(i)) ==> View().queued == [] && View().mining.None?
    {
      ghost var start := View();
      ReachesItself(start);
      var k, asked := 0, 0;
      while true
        invariant k <= |miner| && producer == old(producer)
        invariant fed == old(fed) + miner[..k]
        invariant View().idle.Some? <==> View().mining.None?
        invariant Reaches(start, View())
        decreases |miner| - k
      {
        asked := DriveProducer(ready, asked, start);
        if k == |miner| {
          break;
        }
        Feed(miner[k], start);
        OneMore(old(fed), miner, k);
        k := k + 1;
      }
      assert miner[..k] == miner;
    }
  }
}
