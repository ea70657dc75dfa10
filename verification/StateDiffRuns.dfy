/** Runs of an EVM beside the recorder: contract storage with a checkpoint per frame, every
    frame entry, exit, storage access and account access feeding one hook. */
module StateDiffRuns {
  import opened Common
  import opened StateDiff
  import opened StateDiffLog

  type Key = (Address, Word)
  type Storage = map<Key, Word>

  function Read(storage: Storage, key: Key): Word {
    if key in storage then storage[key] else 0
  }

  /** How a frame ends. The EVM undoes a frame that reverts or halts; only `Revert` makes the
      inspector's `is_revert` test true. */
  datatype Outcome = Success | Revert | Halt

  datatype Event =
    | EnterCall(call: CallInputs, callee: Option<AccountInfo>, chain: ChainInfo)
    | EnterCreate(create: CreateInputs, chain: ChainInfo)
    | ExitCall(target: Address, outcome: Outcome, after: Option<AccountInfo>)
    | ExitCreate(outcome: Outcome, after: Option<AccountInfo>)
    | Load(address: Address, slot: Word)
    | Store(address: Address, slot: Word, value: Word)
    | Access(kind: ExtKind, accessor: Address, account: Address, info: Option<AccountInfo>, chain: ChainInfo)
    | Destroy(accessor: Address, account: Address, info: Option<AccountInfo>, balance: Word, chain: ChainInfo)

  /** The frame that runs is at depth |checkpoints|; its checkpoint is the last. */
  datatype World = World(storage: Storage, checkpoints: seq<Storage>, stack: Stack)

  predicate IsEnter(e: Event) {
    e.EnterCall? || e.EnterCreate?
  }

  predicate IsExit(e: Event) {
    e.ExitCall? || e.ExitCreate?
  }

  /** A call to the cheatcode address or the console opens no frame, and the root frame's end
      ends the transaction, so neither is an event of a run. */
  predicate Enabled(w: World, e: Event) {
    && (e.EnterCall? ==> !IsSkipped(e.call.targetAddress))
    && (e.ExitCall? ==> !IsSkipped(e.target))
    && (IsExit(e) ==> |w.checkpoints| >= 2)
  }

  function HookOf(w: World, e: Event): Hook
    requires Enabled(w, e)
  {
    var depth := |w.checkpoints|;
    match e
    case EnterCall(call, callee, chain) => CallStarts(call, callee, chain, depth)
    case EnterCreate(create, chain) => CreateStarts(create, chain, depth)
    case ExitCall(target, outcome, after) => CallEnds(target, outcome == Revert, after, depth - 1)
    case ExitCreate(outcome, after) => CreateEnds(outcome == Revert, after, depth - 1)
    case Load(address, slot) => Sload(address, slot, Read(w.storage, (address, slot)), depth)
    case Store(address, slot, value) => Sstore(address, slot, Read(w.storage, (address, slot)), value, depth)
    case Access(kind, accessor, account, info, chain) => Ext(kind, accessor, account, info, chain, depth)
    case Destroy(accessor, account, info, balance, chain) => Destruct(accessor, account, info, balance, chain, depth)
  }

  function Step(w: World, e: Event): World
    requires Enabled(w, e)
  {
    var stack := React(w.stack, HookOf(w, e));
    if IsEnter(e) then World(w.storage, w.checkpoints + [w.storage], stack)
    else if IsExit(e) then
      World(if e.outcome == Success then w.storage else Last(w.checkpoints), DropLast(w.checkpoints), stack)
    else if e.Store? then World(w.storage[(e.address, e.slot) := e.value], w.checkpoints, stack)
    else World(w.storage, w.checkpoints, stack)
  }

  predicate Runs(w: World, es: seq<Event>)
    decreases es, 0
  {
    es == [] || (Runs(w, DropLast(es)) && Enabled(Run(w, DropLast(es)), Last(es)))
  }

  function Run(w: World, es: seq<Event>): World
    requires Runs(w, es)
    decreases es, 1
  {
    if es == [] then w else Step(Run(w, DropLast(es)), Last(es))
  }

  lemma {:induction false} RunsPrefix(w: World, es: seq<Event>, n: nat)
    requires Runs(w, es) && n <= |es|
    ensures Runs(w, es[..n])
    ensures n < |es| ==> Enabled(Run(w, es[..n]), es[n])
  {
    if n == |es| {
      assert es[..n] == es;
    } else {
      assert DropLast(es)[..n] == es[..n];
      RunsPrefix(w, DropLast(es), n);
      if n == |es| - 1 {
        assert es[..n] == DropLast(es);
      }
    }
  }

  /** Where the frames entered during the run and still open were entered, outermost first. */
  function Opens(es: seq<Event>): seq<nat> {
    if es == [] then []
    else
      var before := Opens(DropLast(es));
      if IsEnter(Last(es)) then before + [|es| - 1]
      else if IsExit(Last(es)) && before != [] then DropLast(before)
      else before
  }

  lemma {:induction false} OpensIncrease(es: seq<Event>)
    ensures forall i :: 0 <= i < |Opens(es)| ==> Opens(es)[i] < |es|
    ensures forall i, j :: 0 <= i < j < |Opens(es)| ==> Opens(es)[i] < Opens(es)[j]
  {
    if es != [] {
      OpensIncrease(DropLast(es));
    }
  }

  /** Has anything been recorded: a frame entered, or an account accessed? */
  predicate Started(es: seq<Event>) {
    es != [] && (Started(DropLast(es)) || IsEnter(Last(es)) || Last(es).Access?)
  }

  // ---- The stack after each kind of step -------------------------------------------------

  function AccessOf(w: World, e: Event): StorageAccess
    requires e.Load? || e.Store?
  {
    var current := Read(w.storage, (e.address, e.slot));
    StorageAccess(e.address, e.slot, e.Store?, current, if e.Store? then e.value else current, false)
  }

  /** The record an entry, an EXT* access or a self-destruct leaves. */
  function RecordOf(w: World, e: Event): AccountAccess
    requires IsEnter(e) || e.Access? || e.Destroy?
  {
    var depth := |w.checkpoints|;
    match e
    case EnterCall(call, callee, chain) => CallRecord(call, callee, chain, depth)
    case EnterCreate(create, chain) => CreateRecord(create, chain, depth)
    case Access(kind, accessor, account, info, chain) => ExtRecord(kind, accessor, account, info, chain, depth)
    case Destroy(accessor, account, info, balance, chain) =>
      DestructRecord(accessor, account, info, balance, chain, depth)
  }

  function StackAfterExit(w: World, e: Event): Stack
    requires IsExit(e) && w.checkpoints != []
  {
    FrameEnds(w.stack, e.outcome == Revert, e.after, e.ExitCreate?, |w.checkpoints| - 1)
  }

  function StackAfterAccess(w: World, e: Event): Stack
    requires e.Load? || e.Store?
  {
    if w.stack == [] then [] else OnTop(w.stack, AppendAccess(Last(w.stack), AccessOf(w, e), |w.checkpoints|))
  }

  function StackAfterRecord(w: World, e: Event): Stack
    requires IsEnter(e) || e.Access? || e.Destroy?
  {
    var record := RecordOf(w, e);
    if IsEnter(e) then w.stack + [[record]]
    else if w.stack != [] then OnTop(w.stack, Last(w.stack) + [record])
    else if e.Access? then [[record]]
    else []
  }

  lemma ExitStack(w: World, e: Event)
    requires Enabled(w, e) && IsExit(e)
    ensures Step(w, e) == World(if e.outcome == Success then w.storage else Last(w.checkpoints),
                                DropLast(w.checkpoints), StackAfterExit(w, e))
  {
  }

  lemma AccessStack(w: World, e: Event)
    requires Enabled(w, e) && (e.Load? || e.Store?)
    ensures Step(w, e) == World(if e.Store? then w.storage[(e.address, e.slot) := e.value] else w.storage,
                                w.checkpoints, StackAfterAccess(w, e))
  {
  }

  lemma RecordStack(w: World, e: Event)
    requires Enabled(w, e) && (IsEnter(e) || e.Access? || e.Destroy?)
    ensures Step(w, e) == World(w.storage, if IsEnter(e) then w.checkpoints + [w.storage] else w.checkpoints,
                                StackAfterRecord(w, e))
  {
  }

  // ---- The shape of the stack ------------------------------------------------------------

  /** The stack holds one vector per open recorded frame, each led by the record of the frame's
      own entry, above at most one vector of leftovers from frames that have ended. */
  ghost predicate Shape(w: World, open: nat) {
    var bottom := |w.stack| - open;
    var outer := |w.checkpoints| - open;
    && 0 <= bottom <= 1
    && outer >= 1
    && (bottom == 1 ==> w.stack[0] != [] && w.stack[0][0].depth >= outer)
    && (forall j :: bottom <= j < |w.stack| ==> w.stack[j] != [] && w.stack[j][0].depth == outer + j - bottom)
  }

  /** How many frames of the run are open after one more event. */
  function OpenAfter(open: nat, e: Event): nat {
    if IsEnter(e) then open + 1 else if IsExit(e) && open > 0 then open - 1 else open
  }

  lemma ShapeStep(w: World, e: Event, es: seq<Event>)
    requires Enabled(w, e) && Shape(w, |Opens(es)|)
    ensures Shape(Step(w, e), |Opens(es + [e])|)
    ensures Step(w, e).stack != [] <==> w.stack != [] || IsEnter(e) || e.Access?
  {
    OpensStep(es, e);
    ShapeAfter(w, e, Step(w, e), |Opens(es)|);
  }

  lemma OpensStep(es: seq<Event>, e: Event)
    ensures |Opens(es + [e])| == OpenAfter(|Opens(es)|, e)
  {
    assert DropLast(es + [e]) == es;
  }

  lemma ShapeAfter(w: World, e: Event, w': World, open: nat)
    requires Enabled(w, e) && w' == Step(w, e) && Shape(w, open)
    ensures Shape(w', OpenAfter(open, e))
    ensures w'.stack != [] <==> w.stack != [] || IsEnter(e) || e.Access?
  {
    if IsExit(e) {
      assert w'.checkpoints == DropLast(w.checkpoints) && w'.stack == StackAfterExit(w, e) by {
        ExitStack(w, e);
      }
      ExitShape(w, w', e, open);
    } else if e.Load? || e.Store? {
      assert w'.checkpoints == w.checkpoints && w'.stack == StackAfterAccess(w, e) by {
        AccessStack(w, e);
      }
      AccessShape(w, w', e, open);
    } else {
      assert w'.checkpoints == (if IsEnter(e) then w.checkpoints + [w.storage] else w.checkpoints) &&
             w'.stack == StackAfterRecord(w, e) by {
        RecordStack(w, e);
      }
      RecordShape(w, w', e, open);
    }
  }

  lemma ExitShape(w: World, w': World, e: Event, open: nat)
    requires IsExit(e) && |w.checkpoints| >= 2 && Shape(w, open)
    requires w'.checkpoints == DropLast(w.checkpoints) && w'.stack == StackAfterExit(w, e)
    ensures Shape(w', if open > 0 then open - 1 else 0)
    ensures w'.stack != [] <==> w.stack != []
  {
  }

  lemma AccessShape(w: World, w': World, e: Event, open: nat)
    requires (e.Load? || e.Store?) && Shape(w, open)
    requires w'.checkpoints == w.checkpoints && w'.stack == StackAfterAccess(w, e)
    ensures Shape(w', open)
    ensures w'.stack != [] <==> w.stack != []
  {
  }

  lemma RecordShape(w: World, w': World, e: Event, open: nat)
    requires (IsEnter(e) || e.Access? || e.Destroy?) && Shape(w, open)
    requires w'.checkpoints == if IsEnter(e) then w.checkpoints + [w.storage] else w.checkpoints
    requires w'.stack == StackAfterRecord(w, e)
    ensures Shape(w', if IsEnter(e) then open + 1 else open)
    ensures w'.stack != [] <==> w.stack != [] || IsEnter(e) || e.Access?
  {
  }

  lemma {:induction false} RunShape(w: World, es: seq<Event>)
    requires w.stack == [] && |w.checkpoints| >= 1 && Runs(w, es)
    ensures Shape(Run(w, es), |Opens(es)|)
    ensures Run(w, es).stack != [] <==> Started(es)
  {
    if es != [] {
      RunShape(w, DropLast(es));
      assert es == DropLast(es) + [Last(es)];
      ShapeStep(Run(w, DropLast(es)), Last(es), DropLast(es));
    }
  }

  // ---- What a frame's end writes into its record -----------------------------------------

  /** All of a record but the flags and the storage accesses that a revert flags. */
  function Unflagged(record: AccountAccess): AccountAccess {
    record.(reverted := false, storageAccesses := [])
  }

  function Settled(record: AccountAccess, info: AccountInfo, isCreate: bool): AccountAccess {
    var settled := record.(newBalance := info.balance, newNonce := info.nonce);
    if isCreate then settled.(deployedCode := info.code) else settled
  }

  lemma SettleAt(pending: Pending, isRevert: bool, loaded: Option<AccountInfo>, isCreate: bool, depth: nat, k: nat)
    requires k < |pending|
    ensures var popped := if isRevert then Flag(pending) else pending;
            && |Settle(popped, loaded, isCreate, depth)| == |pending|
            && Unflagged(Settle(popped, loaded, isCreate, depth)[k]) ==
               if k == 0 && loaded.Some? && pending[0].depth == depth
               then Settled(Unflagged(pending[0]), loaded.value, isCreate)
               else Unflagged(pending[k])
  {
  }

  lemma EndSettles(stack: Stack, isRevert: bool, loaded: Option<AccountInfo>, isCreate: bool, depth: nat, i: nat)
    requires stack != [] && Last(stack) != [] && depth != 0 && i < |Flatten(stack)|
    ensures var after, below := Flatten(FrameEnds(stack, isRevert, loaded, isCreate, depth)), Flatten(DropLast(stack));
            && |after| == |Flatten(stack)|
            && Unflagged(after[i]) ==
               if i == |below| && loaded.Some? && Last(stack)[0].depth == depth
               then Settled(Unflagged(Flatten(stack)[i]), loaded.value, isCreate)
               else Unflagged(Flatten(stack)[i])
  {
    var below, top := Flatten(DropLast(stack)), Last(stack);
    var popped := if isRevert then Flag(top) else top;
    var settled := Settle(popped, loaded, isCreate, depth);
    SettleAt(top, isRevert, loaded, isCreate, depth, if i < |below| then 0 else i - |below|);
    assert Flatten(FrameEnds(stack, isRevert, loaded, isCreate, depth)) == below + settled by {
      MergeFlattens(DropLast(stack), settled);
    }
    assert Flatten(stack) == below + top;
    ConcatAt(below, top, i);
    ConcatAt(below, settled, i);
  }

  /** The end of a recorded frame fills in the post-call fields of the record of that frame's own
      entry; the end of a frame that was open before the run fills in none. */
  lemma ExitSettlesOwnRecord(w: World, e: Event, open: nat, i: nat)
    requires Enabled(w, e) && IsExit(e) && Shape(w, open) && i < |Flatten(w.stack)|
    ensures |Flatten(Step(w, e).stack)| == |Flatten(w.stack)|
    ensures Unflagged(Flatten(Step(w, e).stack)[i]) ==
            if open > 0 && i == |Flatten(DropLast(w.stack))| && e.after.Some?
            then Settled(Unflagged(Flatten(w.stack)[i]), e.after.value, e.ExitCreate?)
            else Unflagged(Flatten(w.stack)[i])
  {
    assert w.stack != [];
    var stack, isRevert, after, isCreate, depth :=
      w.stack, e.outcome == Revert, e.after, e.ExitCreate?, |w.checkpoints| - 1;
    assert Step(w, e).stack == FrameEnds(stack, isRevert, after, isCreate, depth) by {
      ExitStack(w, e);
    }
    EndSettles(stack, isRevert, after, isCreate, depth, i);
    var top: Pending := Last(stack);
    assert top[0].depth == depth <==> open > 0;
  }

  lemma MergeFlattens(below: Stack, pending: Pending)
    ensures Flatten(Merge(below, pending)) == Flatten(below) + pending
  {
    if pending == [] {
      assert Flatten(below) + [] == Flatten(below);
    } else if below == [] {
      assert DropLast([pending]) == [];
    } else {
      var merged := OnTop(below, Last(below) + pending);
      assert DropLast(merged) == DropLast(below);
      Associative(Flatten(DropLast(below)), Last(below), pending);
    }
  }

  // ---- The diff is the net effect --------------------------------------------------------

  /** The recorded log accounts for a slot that held `start` and now holds `now`. */
  ghost predicate Accounts(log: Log, key: Key, start: Word, now: Word) {
    match SlotDiff(StorageIn(log), key.0, key.1)
    case None => now == start
    case Some(change) => change == Change(start, now)
  }

  ghost predicate Exact(w: World, key: Key, start: Word) {
    Accounts(StackLog(w.stack), key, start, Read(w.storage, key))
  }

  /** What lies below each open recorded frame accounts for that frame's checkpoint. */
  ghost predicate CheckpointsExact(w: World, open: nat, key: Key, start: Word) {
    Shape(w, open) &&
    forall j :: |w.stack| - open <= j < |w.stack| ==>
      Accounts(StackLog(w.stack[..j]), key, start, Read(CheckpointAbove(w, j), key))
  }

  /** The steps that keep the diff of a slot exact. A frame that was already running when
      recording began must not change the slot, nor revert it to another value than it had then;
      and no frame may halt with the slot changed. */
  ghost predicate Benign(w: World, open: nat, e: Event, key: Key, start: Word) {
    if e.Store? && open == 0 && (e.address, e.slot) == key then e.value == Read(w.storage, key)
    else if IsExit(e) && w.checkpoints != [] then
      match e.outcome
      case Success => true
      case Revert => open == 0 ==> Read(Last(w.checkpoints), key) == start
      case Halt => Read(Last(w.checkpoints), key) == Read(w.storage, key)
    else true
  }

  lemma {:induction false} SlotDiffConcat(a: seq<StorageAccess>, b: seq<StorageAccess>, account: Address, slot: Word)
    requires forall i :: 0 <= i < |b| ==> !IsLiveWrite(b[i], account, slot)
    ensures SlotDiff(a + b, account, slot) == SlotDiff(a, account, slot)
  {
    if b == [] {
      assert a + b == a;
    } else {
      assert DropLast(a + b) == a + DropLast(b);
      SlotDiffConcat(a, DropLast(b), account, slot);
    }
  }

  lemma {:induction false} StorageInFlagged(log: Log)
    ensures forall i :: 0 <= i < |StorageIn(WithFlags(log, true))| ==> StorageIn(WithFlags(log, true))[i].reverted
  {
    if log != [] {
      assert DropLast(WithFlags(log, true)) == WithFlags(DropLast(log), true);
      StorageInFlagged(DropLast(log));
    }
  }

  /** Flagged entries and headers contribute nothing to a diff. */
  lemma AccountsFlagged(below: Log, top: Log, key: Key, start: Word, now: Word)
    ensures Accounts(below + WithFlags(top, true), key, start, now) <==> Accounts(below, key, start, now)
  {
    StorageInConcat(below, WithFlags(top, true));
    StorageInFlagged(top);
    SlotDiffConcat(StorageIn(below), StorageIn(WithFlags(top, true)), key.0, key.1);
  }

  lemma AccountsHeader(log: Log, header: AccountAccess, key: Key, start: Word, now: Word)
    ensures Accounts(log + [Account(header)], key, start, now) <==> Accounts(log, key, start, now)
  {
    assert DropLast(log + [Account(header)]) == log;
    assert StorageIn(log + [Account(header)]) == StorageIn(log);
  }

  lemma StorageInAccess(log: Log, pending: Pending, access: StorageAccess, depth: nat)
    ensures StorageIn(log + AccessEntries(pending, access, depth)) ==
            StorageIn(log) + if pending == [] || pending[0].depth >= depth then [] else [access]
  {
    var added := AccessEntries(pending, access, depth);
    if added == [] {
      assert log + added == log;
    } else if |pending| == 1 || Last(pending).kind == Resume {
      assert DropLast(log + added) == log;
    } else {
      assert added == [Account(Header(ResumeRecord(pending[0], access)))] + [Storage(access)];
      assert DropLast(log + added) == log + [added[0]];
      assert DropLast(log + [added[0]]) == log;
    }
  }

  lemma StepExactExit(w: World, w': World, e: Event, open: nat, key: Key, start: Word)
    requires Enabled(w, e) && IsExit(e) && CheckpointsExact(w, open, key, start) && Exact(w, key, start)
    requires w'.storage == if e.outcome == Success then w.storage else Last(w.checkpoints)
    requires w'.stack == StackAfterExit(w, e)
    ensures Exact(w', key, start) <==> Benign(w, open, e, key, start)
  {
    var isRevert, was := e.outcome == Revert, Read(Last(w.checkpoints), key);
    var log, log' := StackLog(w.stack), StackLog(w'.stack);
    var below := if w.stack == [] then [] else StackLog(DropLast(w.stack));
    assert if isRevert then Accounts(log', key, start, was) <==> Accounts(below, key, start, was) else log' == log by {
      ExitLog(w, w', e, below, key, start, was);
    }
    assert if open > 0 then Accounts(below, key, start, was) else below == [] by {
      BelowExact(w, open, below, key, start);
    }
    assert Benign(w, open, e, key, start) <==>
           match e.outcome
           case Success => true
           case Revert => open == 0 ==> was == start
           case Halt => was == Read(w.storage, key);
    ExitAccounts(log, log', below, e.outcome, open, key, start, Read(w.storage, key), was);
  }

  lemma ExitLog(w: World, w': World, e: Event, below: Log, key: Key, start: Word, was: Word)
    requires IsExit(e) && |w.checkpoints| >= 2 && w'.stack == StackAfterExit(w, e)
    requires below == if w.stack == [] then [] else StackLog(DropLast(w.stack))
    ensures if e.outcome == Revert
            then Accounts(StackLog(w'.stack), key, start, was) <==> Accounts(below, key, start, was)
            else StackLog(w'.stack) == StackLog(w.stack)
  {
    if w.stack == [] {
      assert StackLog([]) == [];
    } else {
      StackLogFrameEnds(w.stack, e.outcome == Revert, e.after, e.ExitCreate?, |w.checkpoints| - 1);
      AccountsFlagged(below, LogOf(Last(w.stack)), key, start, was);
    }
  }

  lemma EmptyLog()
    ensures StackLog([]) == []
  {
  }

  lemma BelowExact(w: World, open: nat, below: Log, key: Key, start: Word)
    requires CheckpointsExact(w, open, key, start)
    requires below == if w.stack == [] then [] else StackLog(DropLast(w.stack))
    ensures if open > 0 then Accounts(below, key, start, Read(Last(w.checkpoints), key)) else below == []
  {
    if open > 0 {
      var j := |w.stack| - 1;
      assert w.stack[..j] == DropLast(w.stack) && CheckpointAbove(w, j) == Last(w.checkpoints);
      assert Accounts(StackLog(w.stack[..j]), key, start, Read(CheckpointAbove(w, j), key));
    } else if w.stack != [] {
      assert DropLast(w.stack) == [];
      EmptyLog();
    }
  }

  /** The log that a frame leaves accounts for the value it leaves behind, outcome by outcome. */
  lemma ExitAccounts(log: Log, log': Log, below: Log, outcome: Outcome, open: nat, key: Key, start: Word, now: Word,
                     was: Word)
    requires Accounts(log, key, start, now)
    requires if outcome == Revert then Accounts(log', key, start, was) <==> Accounts(below, key, start, was)
             else log' == log
    requires if open > 0 then Accounts(below, key, start, was) else below == []
    ensures Accounts(log', key, start, if outcome == Success then now else was) <==>
            match outcome
            case Success => true
            case Revert => open == 0 ==> was == start
            case Halt => was == now
  {
  }

  /** Storage accesses are recorded exactly while a recorded frame runs. */
  lemma AccessLog(w: World, e: Event, after: Stack, open: nat)
    requires (e.Load? || e.Store?) && Shape(w, open)
    requires after == StackAfterAccess(w, e)
    ensures StorageIn(StackLog(after)) ==
            StorageIn(StackLog(w.stack)) + if open > 0 then [AccessOf(w, e)] else []
  {
    if w.stack != [] {
      var depth := |w.checkpoints|;
      AccessAppends(w.stack, AccessOf(w, e), depth);
      StorageInAccess(StackLog(w.stack), Last(w.stack), AccessOf(w, e), depth);
    }
  }

  lemma StepExactAccess(w: World, w': World, e: Event, open: nat, key: Key, start: Word)
    requires Enabled(w, e) && (e.Load? || e.Store?) && Exact(w, key, start)
    requires w'.storage == if e.Store? then w.storage[(e.address, e.slot) := e.value] else w.storage
    requires StorageIn(StackLog(w'.stack)) ==
             StorageIn(StackLog(w.stack)) + if open > 0 then [AccessOf(w, e)] else []
    ensures Exact(w', key, start) <==> Benign(w, open, e, key, start)
  {
    if open > 0 {
      assert DropLast(StorageIn(StackLog(w.stack)) + [AccessOf(w, e)]) == StorageIn(StackLog(w.stack));
    } else {
      assert StorageIn(StackLog(w.stack)) + [] == StorageIn(StackLog(w.stack));
    }
  }

  lemma StepExactRecord(w: World, w': World, e: Event, key: Key, start: Word)
    requires (IsEnter(e) || e.Access? || e.Destroy?) && Exact(w, key, start)
    requires w'.storage == w.storage && w'.stack == StackAfterRecord(w, e)
    ensures Exact(w', key, start)
  {
    var record := RecordOf(w, e);
    AccountsHeader(StackLog(w.stack), Header(record), key, start, Read(w.storage, key));
    if IsEnter(e) {
      PushAppends(w.stack, record);
    } else {
      RecordAppends(w.stack, record);
      assert w.stack == [] ==> StackLog(w.stack) + [Account(Header(record))] == [Account(Header(record))];
    }
  }

  /** One step keeps an exact diff exact precisely when the step is benign. */
  lemma StepExact(w: World, e: Event, es: seq<Event>, key: Key, start: Word)
    requires Enabled(w, e) && CheckpointsExact(w, |Opens(es)|, key, start) && Exact(w, key, start)
    ensures Exact(Step(w, e), key, start) <==> Benign(w, |Opens(es)|, e, key, start)
    ensures CheckpointsExact(Step(w, e), |Opens(es + [e])|, key, start)
  {
    var w', open := Step(w, e), |Opens(es)|;
    var open' := OpenAfter(open, e);
    OpensStep(es, e);
    assert CheckpointsExact(w', open', key, start) by {
      ShapeAfter(w, e, w', open);
      forall j | |w'.stack| - open' <= j < |w'.stack|
        ensures Kept(w, w', open, j)
      {
        StepKeeps(w, e, w', open, open', j);
      }
      StepCheckpoints(w, w', open, open', key, start);
    }
    StepExactHere(w, e, w', open, key, start);
  }

  lemma StepExactHere(w: World, e: Event, w': World, open: nat, key: Key, start: Word)
    requires Enabled(w, e) && w' == Step(w, e) && CheckpointsExact(w, open, key, start) && Exact(w, key, start)
    ensures Exact(w', key, start) <==> Benign(w, open, e, key, start)
  {
    if IsExit(e) {
      assert w'.storage == (if e.outcome == Success then w.storage else Last(w.checkpoints)) &&
             w'.stack == StackAfterExit(w, e) by {
        ExitStack(w, e);
      }
      StepExactExit(w, w', e, open, key, start);
    } else if e.Load? || e.Store? {
      assert w'.storage == (if e.Store? then w.storage[(e.address, e.slot) := e.value] else w.storage) &&
             w'.stack == StackAfterAccess(w, e) by {
        AccessStack(w, e);
      }
      AccessLog(w, e, w'.stack, open);
      StepExactAccess(w, w', e, open, key, start);
    } else {
      assert w'.storage == w.storage && w'.stack == StackAfterRecord(w, e) by {
        RecordStack(w, e);
      }
      StepExactRecord(w, w', e, key, start);
    }
  }

  function CheckpointAbove(w: World, j: nat): Storage
    requires |w.stack| <= |w.checkpoints| + j && j < |w.stack|
  {
    w.checkpoints[|w.checkpoints| - |w.stack| + j]
  }

  /** What lies below position j, and the checkpoint of the frame there, are as before the step,
      or the step has just entered that frame. */
  ghost predicate Kept(w: World, w': World, open: nat, j: nat) {
    && |w'.stack| <= |w'.checkpoints| + j && j < |w'.stack|
    && if j == |w.stack| then w'.stack[..j] == w.stack && CheckpointAbove(w', j) == w.storage
       else |w.stack| - open <= j < |w.stack| <= |w.checkpoints| + j && w'.stack[..j] == w.stack[..j] &&
            CheckpointAbove(w', j) == CheckpointAbove(w, j)
  }

  /** A step touches only the top of the stack. */
  lemma StepKeeps(w: World, e: Event, w': World, open: nat, open': nat, j: nat)
    requires Enabled(w, e) && w' == Step(w, e) && Shape(w, open) && Shape(w', open')
    requires open' == OpenAfter(open, e)
    requires |w'.stack| - open' <= j < |w'.stack|
    ensures Kept(w, w', open, j)
  {
    if IsExit(e) {
      assert w'.checkpoints == DropLast(w.checkpoints) && w'.stack == StackAfterExit(w, e) by {
        ExitStack(w, e);
      }
      ExitKeeps(w, w', e, open, j);
    } else if e.Load? || e.Store? {
      assert w'.checkpoints == w.checkpoints && w'.stack == StackAfterAccess(w, e) by {
        AccessStack(w, e);
      }
      AccessKeeps(w, w', e, open, j);
    } else {
      assert w'.checkpoints == (if IsEnter(e) then w.checkpoints + [w.storage] else w.checkpoints) &&
             w'.stack == StackAfterRecord(w, e) by {
        RecordStack(w, e);
      }
      RecordKeeps(w, w', e, open, j);
    }
  }

  lemma AccessKeeps(w: World, w': World, e: Event, open: nat, j: nat)
    requires (e.Load? || e.Store?) && Shape(w, open) && |w.stack| - open <= j < |w'.stack|
    requires w'.checkpoints == w.checkpoints && w'.stack == StackAfterAccess(w, e)
    ensures Kept(w, w', open, j)
  {
  }

  lemma RecordKeeps(w: World, w': World, e: Event, open: nat, j: nat)
    requires (IsEnter(e) || e.Access? || e.Destroy?) && Shape(w, open)
    requires w'.checkpoints == if IsEnter(e) then w.checkpoints + [w.storage] else w.checkpoints
    requires w'.stack == StackAfterRecord(w, e)
    requires |w'.stack| - (if IsEnter(e) then open + 1 else open) <= j < |w'.stack|
    ensures Kept(w, w', open, j)
  {
  }

  lemma ExitKeeps(w: World, w': World, e: Event, open: nat, j: nat)
    requires IsExit(e) && |w.checkpoints| >= 2 && Shape(w, open)
    requires w'.checkpoints == DropLast(w.checkpoints) && w'.stack == StackAfterExit(w, e)
    requires |w'.stack| - (if open > 0 then open - 1 else 0) <= j < |w'.stack|
    ensures Kept(w, w', open, j)
  {
  }

  lemma StepCheckpoints(w: World, w': World, open: nat, open': nat, key: Key, start: Word)
    requires CheckpointsExact(w, open, key, start) && Exact(w, key, start) && Shape(w', open')
    requires forall j :: |w'.stack| - open' <= j < |w'.stack| ==> Kept(w, w', open, j)
    ensures CheckpointsExact(w', open', key, start)
  {
    forall j | |w'.stack| - open' <= j < |w'.stack|
      ensures Accounts(StackLog(w'.stack[..j]), key, start, Read(CheckpointAbove(w', j), key))
    {
      assert Kept(w, w', open, j);
    }
  }

  // ---- Over whole runs -------------------------------------------------------------------

  /** The world after the first n events. */
  function At(w: World, es: seq<Event>, n: nat): World
    requires Runs(w, es) && n <= |es|
  {
    RunsPrefix(w, es, n);
    Run(w, es[..n])
  }

  lemma AtStep(w: World, es: seq<Event>, n: nat)
    requires Runs(w, es) && n < |es|
    ensures Enabled(At(w, es, n), es[n]) && At(w, es, n + 1) == Step(At(w, es, n), es[n])
    ensures es[..n + 1] == es[..n] + [es[n]]
  {
    var before := es[..n];
    assert es[..n + 1] == before + [es[n]];
    assert Runs(w, before + [es[n]]) by {
      RunsPrefix(w, es, n + 1);
    }
    RunSnoc(w, before, es[n]);
  }

  lemma RunSnoc(w: World, es: seq<Event>, e: Event)
    requires Runs(w, es + [e])
    ensures Runs(w, es) && Enabled(Run(w, es), e) && Run(w, es + [e]) == Step(Run(w, es), e)
  {
    assert DropLast(es + [e]) == es;
  }

  ghost predicate ExactAt(w: World, es: seq<Event>, n: nat, key: Key)
    requires Runs(w, es) && n <= |es|
  {
    Exact(At(w, es, n), key, Read(w.storage, key))
  }

  ghost predicate BenignAt(w: World, es: seq<Event>, n: nat, key: Key)
    requires Runs(w, es) && n < |es|
  {
    Benign(At(w, es, n), |Opens(es[..n])|, es[n], key, Read(w.storage, key))
  }

  lemma {:induction false} ExactUpTo(w: World, es: seq<Event>, n: nat, key: Key)
    requires w.stack == [] && |w.checkpoints| >= 1 && Runs(w, es) && n <= |es|
    requires forall i :: 0 <= i < n ==> BenignAt(w, es, i, key) || ExactAt(w, es, i + 1, key)
    ensures ExactAt(w, es, n, key)
    ensures CheckpointsExact(At(w, es, n), |Opens(es[..n])|, key, Read(w.storage, key))
  {
    if n == 0 {
      assert At(w, es, 0) == w && es[..0] == [];
      assert StackLog([]) == [];
    } else {
      ExactUpTo(w, es, n - 1, key);
      assert BenignAt(w, es, n - 1, key) || ExactAt(w, es, n, key);
      var before := At(w, es, n - 1);
      AtStep(w, es, n - 1);
      StepExact(before, es[n - 1], es[..n - 1], key, Read(w.storage, key));
    }
  }

  /** The diff of a slot is exact at every moment of a run if and only if every step is benign. */
  lemma {:induction false} ExactThroughout(w: World, es: seq<Event>, key: Key)
    requires w.stack == [] && |w.checkpoints| >= 1 && Runs(w, es)
    ensures (forall n :: 0 <= n <= |es| ==> ExactAt(w, es, n, key)) <==>
            (forall n :: 0 <= n < |es| ==> BenignAt(w, es, n, key))
  {
    if forall n :: 0 <= n <= |es| ==> ExactAt(w, es, n, key) {
      forall n | 0 <= n < |es|
        ensures BenignAt(w, es, n, key)
      {
        ExactUpTo(w, es, n, key);
        AtStep(w, es, n);
        assert ExactAt(w, es, n + 1, key);
        StepExact(At(w, es, n), es[n], es[..n], key, Read(w.storage, key));
      }
    } else if forall n :: 0 <= n < |es| ==> BenignAt(w, es, n, key) {
      forall n | 0 <= n <= |es|
        ensures ExactAt(w, es, n, key)
      {
        ExactUpTo(w, es, n, key);
      }
    }
  }

  /** The starting frame stays open and writes nothing itself, and no frame halts. */
  ghost predicate Quiet(es: seq<Event>) {
    forall n :: 0 <= n < |es| ==>
      && (es[n].Store? || IsExit(es[n]) ==> Opens(es[..n]) != [])
      && (IsExit(es[n]) ==> es[n].outcome != Halt)
  }

  /** What the reported diff makes of a slot of the storage it is applied to. */
  function Patched(diffs: Diffs, storage: Storage, key: Key): Word {
    var change := LookupSlot(diffs, key.0, key.1);
    if change.Some? then change.value.next else Read(storage, key)
  }

  /** Over every quiet run, with any nesting of calls, creates and reverts, the reported diff
      takes the storage at the start of recording to the current storage; its old values are
      the starting ones, and a slot it does not mention has not changed. */
  lemma {:induction false} DiffIsNetEffect(w: World, es: seq<Event>, diffs: Diffs, key: Key)
    requires w.stack == [] && |w.checkpoints| >= 1 && Runs(w, es) && Quiet(es)
    requires Reports(diffs, Flatten(Run(w, es).stack))
    ensures Patched(diffs, w.storage, key) == Read(Run(w, es).storage, key)
    ensures var change := LookupSlot(diffs, key.0, key.1);
            change.Some? ==> change.value == Change(Read(w.storage, key), Read(Run(w, es).storage, key))
  {
    forall n | 0 <= n < |es|
      ensures BenignAt(w, es, n, key)
    {
    }
    ExactUpTo(w, es, |es|, key);
    assert es[..|es|] == es;
    StorageLogIsInLog(Flatten(Run(w, es).stack));
  }

  /** Out of bounds: a write by the starting frame itself is not recorded, so the diff misses it. */
  lemma StartingFrameWriteIsMissed(storage: Storage, address: Address, slot: Word, value: Word)
    requires value != Read(storage, (address, slot))
    ensures var w := World(storage, [storage], []);
            var es := [Store(address, slot, value)];
            Runs(w, es) && !Exact(Run(w, es), (address, slot), Read(storage, (address, slot)))
  {
    var w, es := World(storage, [storage], []), [Store(address, slot, value)];
    assert Runs(w, []);
    assert DropLast(es) == [] && Run(w, []) == w;
    assert Runs(w, es);
    assert StackLog([]) == [];
  }

  /** Out of bounds: the EVM undoes a halted frame's write, and its record is not flagged. */
  lemma HaltedFrameWriteIsKept(storage: Storage, call: CallInputs, chain: ChainInfo, address: Address, slot: Word,
                               value: Word)
    requires !IsSkipped(call.targetAddress) && value != Read(storage, (address, slot))
    ensures var w := World(storage, [storage], []);
            var exit := ExitCall(call.targetAddress, Halt, None);
            var es := [EnterCall(call, None, chain), Store(address, slot, value), exit];
            Runs(w, es) && !Exact(Run(w, es), (address, slot), Read(storage, (address, slot)))
  {
    var w, key := World(storage, [storage], []), (address, slot);
    var enter, store, exit := EnterCall(call, None, chain), Store(address, slot, value),
                              ExitCall(call.targetAddress, Halt, None);
    HaltedRun(w, key, enter, store, exit);
  }

  lemma HaltedRun(w: World, key: Key, enter: Event, store: Event, exit: Event)
    requires w.stack == [] && w.checkpoints == [w.storage]
    requires enter.EnterCall? && !IsSkipped(enter.call.targetAddress)
    requires store.Store? && (store.address, store.slot) == key && store.value != Read(w.storage, key)
    requires exit.ExitCall? && exit.outcome == Halt && !IsSkipped(exit.target)
    ensures var es := [enter, store, exit];
            Runs(w, es) && !Exact(Run(w, es), key, Read(w.storage, key))
  {
    EnterAndStore(w, key, enter, store);
    var two, w2 := [enter, store], Run(w, [enter, store]);
    assert Read(w2.storage, key) == store.value && |w2.checkpoints| == 2 && Last(w2.checkpoints) == w.storage;
    assert Runs(w, two + [exit]) && Run(w, two + [exit]) == Step(w2, exit) by {
      Extend(w, two, exit);
    }
    assert two + [exit] == [enter, store, exit];
    BenignPrefix(w, two, key);
    StepExact(w2, exit, two, key, Read(w.storage, key));
  }

  lemma EnterAndStore(w: World, key: Key, enter: Event, store: Event)
    requires w.checkpoints == [w.storage] && enter.EnterCall? && !IsSkipped(enter.call.targetAddress)
    requires store.Store? && (store.address, store.slot) == key
    ensures Runs(w, [enter, store])
    ensures var w2 := Run(w, [enter, store]);
            Read(w2.storage, key) == store.value && |w2.checkpoints| == 2 && Last(w2.checkpoints) == w.storage
  {
    assert Runs(w, []) && Run(w, []) == w;
    var w1 := Step(w, enter);
    assert Runs(w, [enter]) && Run(w, [enter]) == w1 by {
      Extend(w, [], enter);
      assert [] + [enter] == [enter];
    }
    assert w1.checkpoints == [w.storage] + [w.storage] by {
      RecordStack(w, enter);
    }
    assert Runs(w, [enter, store]) && Run(w, [enter, store]) == Step(w1, store) by {
      Extend(w, [enter], store);
      assert [enter] + [store] == [enter, store];
    }
    AccessStack(w1, store);
  }

  lemma Extend(w: World, es: seq<Event>, e: Event)
    requires Runs(w, es) && Enabled(Run(w, es), e)
    ensures Runs(w, es + [e]) && Run(w, es + [e]) == Step(Run(w, es), e)
  {
    assert DropLast(es + [e]) == es;
  }

  /** A recorded call that has just stored something still has an exact diff. */
  lemma BenignPrefix(w: World, es: seq<Event>, key: Key)
    requires w.stack == [] && |w.checkpoints| >= 1 && Runs(w, es)
    requires |es| == 2 && IsEnter(es[0]) && es[1].Store?
    ensures Exact(Run(w, es), key, Read(w.storage, key))
    ensures CheckpointsExact(Run(w, es), |Opens(es)|, key, Read(w.storage, key))
  {
    assert es[..0] == [] && es[..1] == [es[0]] && es[..2] == es;
    assert |Opens(es[..1])| == 1 by {
      OpensStep([], es[0]);
      assert [] + [es[0]] == [es[0]];
    }
    assert BenignAt(w, es, 0, key) && BenignAt(w, es, 1, key);
    ExactUpTo(w, es, 2, key);
  }
}
