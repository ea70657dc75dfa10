/** The state-diff recorder of the cheatcode inspector: what every hook does to the stack of
    pending account accesses, and what the cheatcodes that read the stack return. */
module StateDiff {
  import opened Common

  type Address = nat
  type Word = nat // a 256-bit word, stored and compared; only SELFDESTRUCT adds two

  const CHEATCODE_ADDRESS: Address := 0x7109709ECfa91a80626fF3989D68f67F5b1DD12D
  const HARDHAT_CONSOLE_ADDRESS: Address := 0x000000000000000000636F6e736F6c652e6c6f67

  datatype Kind =
    | Call | DelegateCall | CallCode | StaticCall | Create | SelfDestruct | Resume
    | Balance | Extcodesize | Extcodehash | Extcodecopy

  type CallScheme = k: Kind | k.Call? || k.DelegateCall? || k.CallCode? || k.StaticCall? witness Call
  type ExtKind = k: Kind | k.Balance? || k.Extcodesize? || k.Extcodehash? || k.Extcodecopy? witness Balance

  datatype StorageAccess = StorageAccess(
    account: Address, slot: Word, isWrite: bool, previousValue: Word, newValue: Word, reverted: bool)

  datatype ChainInfo = ChainInfo(forkId: Word, chainId: Word)

  datatype AccountAccess = AccountAccess(
    chainInfo: ChainInfo, accessor: Address, account: Address, kind: Kind, initialized: bool,
    oldBalance: Word, newBalance: Word, oldNonce: nat, newNonce: nat, value: Word, data: seq<nat>,
    reverted: bool, deployedCode: seq<nat>, storageAccesses: seq<StorageAccess>, depth: nat)

  /** The accesses pending at one call depth, and the stack of all of them. */
  type Pending = seq<AccountAccess>
  type Stack = seq<Pending>

  datatype AccountInfo = AccountInfo(initialized: bool, balance: Word, nonce: nat, code: seq<nat>)

  datatype CallInputs = CallInputs(
    caller: Address, targetAddress: Address, bytecodeAddress: Address, scheme: CallScheme, value: Word, data: seq<nat>)

  datatype CreateInputs = CreateInputs(caller: Address, address: Address, value: Word, initCode: seq<nat>)

  /** Everything that can happen to the recorder, with what the hook reads from the journal.
      `loaded` is None when the account cannot be loaded (or, for a create, has no address). */
  datatype Hook =
    | CallStarts(call: CallInputs, loaded: Option<AccountInfo>, chain: ChainInfo, depth: nat)
    | CreateStarts(create: CreateInputs, chain: ChainInfo, depth: nat)
    | CallEnds(target: Address, isRevert: bool, loaded: Option<AccountInfo>, depth: nat)
    | CreateEnds(isRevert: bool, loaded: Option<AccountInfo>, depth: nat)
    | Sload(address: Address, key: Word, present: Word, depth: nat)
    | Sstore(address: Address, key: Word, previous: Word, value: Word, depth: nat)
    | Ext(kind: ExtKind, accessor: Address, address: Address, loaded: Option<AccountInfo>, chain: ChainInfo, depth: nat)
    | Destruct(
        accessor: Address, target: Address, loaded: Option<AccountInfo>, value: Word, chain: ChainInfo, depth: nat)

  predicate IsSkipped(target: Address) {
    target == CHEATCODE_ADDRESS || target == HARDHAT_CONSOLE_ADDRESS
  }

  // ---- The records the hooks build -------------------------------------------------------

  function InfoOr(loaded: Option<AccountInfo>): AccountInfo {
    if loaded.Some? then loaded.value else AccountInfo(false, 0, 0, [])
  }

  function CallRecord(call: CallInputs, loaded: Option<AccountInfo>, chain: ChainInfo, depth: nat): AccountAccess {
    var info := InfoOr(loaded);
    AccountAccess(chain, call.caller, call.bytecodeAddress, call.scheme, info.initialized, info.balance, 0,
                  info.nonce, 0, call.value, call.data, false, [], [], depth)
  }

  function CreateRecord(create: CreateInputs, chain: ChainInfo, depth: nat): AccountAccess {
    AccountAccess(chain, create.caller, create.address, Create, true, 0, 0, 0, 1,
                  create.value, create.initCode, false, [], [], depth)
  }

  function ExtRecord(kind: ExtKind, accessor: Address, address: Address, loaded: Option<AccountInfo>, chain: ChainInfo,
                     depth: nat): AccountAccess {
    var info := InfoOr(loaded);
    AccountAccess(chain, accessor, address, kind, info.initialized, info.balance, info.balance, info.nonce, info.nonce,
                  0, [], false, [], [], depth)
  }

  function DestructRecord(accessor: Address, target: Address, loaded: Option<AccountInfo>, value: Word,
                          chain: ChainInfo, depth: nat): AccountAccess {
    var info := InfoOr(loaded);
    AccountAccess(chain, accessor, target, SelfDestruct, info.initialized, info.balance, (info.balance + value) % U256,
                  info.nonce, info.nonce, value, [], false, [], [], depth)
  }

  function ResumeRecord(entry: AccountAccess, access: StorageAccess): AccountAccess {
    AccountAccess(entry.chainInfo, entry.accessor, entry.account, Resume, entry.initialized, 0, 0, 0, 0,
                  0, [], entry.reverted, [], [access], entry.depth)
  }

  // ---- What a hook does to the stack -----------------------------------------------------

  function WithAccess(record: AccountAccess, access: StorageAccess): AccountAccess {
    record.(storageAccesses := record.storageAccesses + [access])
  }

  function AppendAccess(pending: Pending, access: StorageAccess, depth: nat): Pending {
    if pending == [] || pending[0].depth >= depth then pending
    else if |pending| == 1 || Last(pending).kind == Resume then
      pending[|pending| - 1 := WithAccess(Last(pending), access)]
    else pending + [ResumeRecord(pending[0], access)]
  }

  function OnTop(stack: Stack, pending: Pending): Stack
    requires stack != []
  {
    stack[|stack| - 1 := pending]
  }

  function FlagAccesses(accesses: seq<StorageAccess>): seq<StorageAccess> {
    seq(|accesses|, i requires 0 <= i < |accesses| => accesses[i].(reverted := true))
  }

  function FlagRecord(record: AccountAccess): AccountAccess {
    record.(reverted := true, storageAccesses := FlagAccesses(record.storageAccesses))
  }

  function Flag(pending: Pending): Pending {
    seq(|pending|, i requires 0 <= i < |pending| => FlagRecord(pending[i]))
  }

  /** The post-call fields of a frame's first record, set when the record is of this depth. */
  function Settle(pending: Pending, loaded: Option<AccountInfo>, isCreate: bool, depth: nat): Pending {
    if pending == [] || loaded.None? || pending[0].depth != depth then pending
    else
      var info := loaded.value;
      var first := pending[0].(newBalance := info.balance, newNonce := info.nonce);
      [if isCreate then first.(deployedCode := info.code) else first] + pending[1..]
  }

  /** Merge a popped frame into the one below it, or keep it as the bottom of the stack. */
  function Merge(stack: Stack, pending: Pending): Stack {
    if pending == [] then stack
    else if stack == [] then [pending]
    else OnTop(stack, Last(stack) + pending)
  }

  function FrameEnds(stack: Stack, isRevert: bool, loaded: Option<AccountInfo>, isCreate: bool, depth: nat): Stack {
    if depth == 0 || stack == [] then stack
    else
      var popped := if isRevert then Flag(Last(stack)) else Last(stack);
      Merge(DropLast(stack), Settle(popped, loaded, isCreate, depth))
  }

  function React(stack: Stack, hook: Hook): Stack {
    match hook
    case CallStarts(call, loaded, chain, depth) =>
      if IsSkipped(call.targetAddress) then stack else stack + [[CallRecord(call, loaded, chain, depth)]]
    case CreateStarts(create, chain, depth) => stack + [[CreateRecord(create, chain, depth)]]
    case CallEnds(target, isRevert, loaded, depth) =>
      if IsSkipped(target) then stack else FrameEnds(stack, isRevert, loaded, false, depth)
    case CreateEnds(isRevert, loaded, depth) => FrameEnds(stack, isRevert, loaded, true, depth)
    case Sload(address, key, present, depth) =>
      if stack == [] then stack
      else OnTop(stack, AppendAccess(Last(stack), StorageAccess(address, key, false, present, present, false), depth))
    case Sstore(address, key, previous, value, depth) =>
      if stack == [] then stack
      else OnTop(stack, AppendAccess(Last(stack), StorageAccess(address, key, true, previous, value, false), depth))
    case Ext(kind, accessor, address, loaded, chain, depth) =>
      var record := ExtRecord(kind, accessor, address, loaded, chain, depth);
      if stack == [] then [[record]] else OnTop(stack, Last(stack) + [record])
    case Destruct(accessor, target, loaded, value, chain, depth) =>
      if stack == [] then stack
      else OnTop(stack, Last(stack) + [DestructRecord(accessor, target, loaded, value, chain, depth)])
  }

  // ---- What the cheatcodes read off the stack --------------------------------------------

  function StorageLog(records: Pending): seq<StorageAccess> {
    if records == [] then [] else StorageLog(DropLast(records)) + Last(records).storageAccesses
  }

  lemma StorageLogSnoc(before: Pending, records: Pending, j: nat)
    requires j < |records|
    ensures StorageLog(before + records[..j + 1]) == StorageLog(before + records[..j]) + records[j].storageAccesses
  {
    assert before + records[..j + 1] == (before + records[..j]) + [records[j]];
  }

  datatype Change = Change(previous: Word, next: Word)

  datatype AccountDiff = AccountDiff(balance: Option<Change>, nonce: Option<Change>, slots: map<Word, Change>)

  type Diffs = map<Address, AccountDiff>

  const EMPTY_DIFF := AccountDiff(None, None, map[])

  /** A surviving write to one slot of one account. */
  predicate IsLiveWrite(a: StorageAccess, account: Address, slot: Word) {
    a.isWrite && !a.reverted && a.account == account && a.slot == slot
  }

  function Merged(diff: Option<Change>, change: Change): Option<Change> {
    Some(if diff.Some? then Change(diff.value.previous, change.next) else change)
  }

  /** First value overwritten and last value written by the surviving writes to a slot. */
  function SlotDiff(accesses: seq<StorageAccess>, account: Address, slot: Word): Option<Change> {
    if accesses == [] then None
    else
      var diff := SlotDiff(DropLast(accesses), account, slot);
      var a := Last(accesses);
      if IsLiveWrite(a, account, slot) then Merged(diff, Change(a.previousValue, a.newValue)) else diff
  }

  /** The pair is there when a write to the slot survived, and then joins the value that the first
      surviving write replaced to the value that the last one left. */
  lemma {:induction false} SlotDiffIsFirstAndLast(accesses: seq<StorageAccess>, account: Address, slot: Word, i: nat,
                                                  j: nat)
    requires i <= j < |accesses|
    requires IsLiveWrite(accesses[i], account, slot) && IsLiveWrite(accesses[j], account, slot)
    requires forall k :: 0 <= k < i || j < k < |accesses| ==> !IsLiveWrite(accesses[k], account, slot)
    ensures SlotDiff(accesses, account, slot) == Some(Change(accesses[i].previousValue, accesses[j].newValue))
  {
    var before := DropLast(accesses);
    if j < |before| {
      SlotDiffIsFirstAndLast(before, account, slot, i, j);
    } else if i == j {
      NoLiveWrite(before, account, slot);
    } else {
      var last := LastLiveWrite(before, account, slot, i);
      SlotDiffIsFirstAndLast(before, account, slot, i, last);
    }
  }

  lemma {:induction false} NoLiveWrite(accesses: seq<StorageAccess>, account: Address, slot: Word)
    requires forall k :: 0 <= k < |accesses| ==> !IsLiveWrite(accesses[k], account, slot)
    ensures SlotDiff(accesses, account, slot) == None
  {
    if accesses != [] {
      NoLiveWrite(DropLast(accesses), account, slot);
    }
  }

  lemma {:induction false} LastLiveWrite(accesses: seq<StorageAccess>, account: Address, slot: Word, i: nat)
    returns (j: nat)
    requires i < |accesses| && IsLiveWrite(accesses[i], account, slot)
    ensures i <= j < |accesses| && IsLiveWrite(accesses[j], account, slot)
    ensures forall k :: j < k < |accesses| ==> !IsLiveWrite(accesses[k], account, slot)
  {
    j := |accesses| - 1;
    if !IsLiveWrite(accesses[j], account, slot) {
      j := LastLiveWrite(DropLast(accesses), account, slot, i);
    }
  }

  function BalanceDiff(records: Pending, account: Address): Option<Change> {
    if records == [] then None
    else
      var diff := BalanceDiff(DropLast(records), account);
      var r := Last(records);
      if r.account == account && r.oldBalance != r.newBalance
      then Merged(diff, Change(r.oldBalance, r.newBalance)) else diff
  }

  function NonceDiff(records: Pending, account: Address): Option<Change> {
    if records == [] then None
    else
      var diff := NonceDiff(DropLast(records), account);
      var r := Last(records);
      if r.account == account && r.oldNonce != r.newNonce
      then Merged(diff, Change(r.oldNonce, r.newNonce)) else diff
  }

  function LookupSlot(diffs: Diffs, account: Address, slot: Word): Option<Change> {
    if account in diffs && slot in diffs[account].slots then Some(diffs[account].slots[slot]) else None
  }

  function LookupBalance(diffs: Diffs, account: Address): Option<Change> {
    if account in diffs then diffs[account].balance else None
  }

  function LookupNonce(diffs: Diffs, account: Address): Option<Change> {
    if account in diffs then diffs[account].nonce else None
  }

  ghost predicate Reports(diffs: Diffs, records: Pending) {
    && (forall a, k :: LookupSlot(diffs, a, k) == SlotDiff(StorageLog(records), a, k))
    && (forall a :: LookupBalance(diffs, a) == BalanceDiff(records, a))
    && (forall a :: LookupNonce(diffs, a) == NonceDiff(records, a))
  }

  class Cheatcodes {
    var recorded: Option<Stack>

    constructor ()
      ensures recorded == None
    {
      recorded := None;
    }

    method StartStateDiffRecording()
      modifies this
      ensures recorded == Some([])
    {
      recorded := Some([]);
    }

    /** The `call` hook: a new pending vector, unless the target is a cheatcode or the console. */
    method OnCall(call: CallInputs, loaded: Option<AccountInfo>, chain: ChainInfo, depth: nat)
      modifies this
      ensures recorded == if old(recorded).None? then None
                          else Some(React(old(recorded).value, CallStarts(call, loaded, chain, depth)))
    {
      if call.targetAddress == CHEATCODE_ADDRESS {
        return;
      }
      if call.targetAddress == HARDHAT_CONSOLE_ADDRESS {
        return;
      }
      if recorded.Some? {
        recorded := Some(recorded.value + [[CallRecord(call, loaded, chain, depth)]]);
      }
    }

    method OnCreate(create: CreateInputs, chain: ChainInfo, depth: nat)
      modifies this
      ensures recorded == if old(recorded).None? then None
                          else Some(React(old(recorded).value, CreateStarts(create, chain, depth)))
    {
      if recorded.Some? {
        recorded := Some(recorded.value + [[CreateRecord(create, chain, depth)]]);
      }
    }

    method OnCallEnd(target: Address, isRevert: bool, loaded: Option<AccountInfo>, depth: nat)
      modifies this
      ensures recorded == if old(recorded).None? then None
                          else Some(React(old(recorded).value, CallEnds(target, isRevert, loaded, depth)))
    {
      if target == CHEATCODE_ADDRESS || target == HARDHAT_CONSOLE_ADDRESS {
        return;
      }
      EndFrame(isRevert, loaded, false, depth);
    }

    method OnCreateEnd(isRevert: bool, loaded: Option<AccountInfo>, depth: nat)
      modifies this
      ensures recorded == if old(recorded).None? then None
                          else Some(React(old(recorded).value, CreateEnds(isRevert, loaded, depth)))
    {
      EndFrame(isRevert, loaded, true, depth);
    }

    /** The part the two end hooks share: pop, flag if reverted, settle the first record, merge. */
    method EndFrame(isRevert: bool, loaded: Option<AccountInfo>, isCreate: bool, depth: nat)
      modifies this
      ensures recorded == if old(recorded).None? then None
                          else Some(FrameEnds(old(recorded).value, isRevert, loaded, isCreate, depth))
    {
      if recorded.None? || depth == 0 || recorded.value == [] {
        return;
      }
      var stack := recorded.value;
      var last := stack[|stack| - 1];
      stack := stack[..|stack| - 1];
      if isRevert {
        last := MarkReverted(last);
      }
      if last != [] {
        if last[0].depth == depth && loaded.Some? {
          var first := last[0].(newBalance := loaded.value.balance, newNonce := loaded.value.nonce);
          if isCreate {
            first := first.(deployedCode := loaded.value.code);
          }
          last := [first] + last[1..];
        }
        if stack != [] {
          stack := stack[|stack| - 1 := stack[|stack| - 1] + last];
        } else {
          stack := [last];
        }
      }
      recorded := Some(stack);
    }

    /** Set the reverted flag of every record and of every storage access in it. */
    static method MarkReverted(pending: Pending) returns (flagged: Pending)
      ensures flagged == Flag(pending)
    {
      flagged := pending;
      for i := 0 to |pending|
        invariant |flagged| == |pending|
        invariant forall k :: 0 <= k < i ==> flagged[k] == FlagRecord(pending[k])
        invariant forall k :: i <= k < |pending| ==> flagged[k] == pending[k]
      {
        var accesses := flagged[i].storageAccesses;
        for j := 0 to |accesses|
          invariant |accesses| == |pending[i].storageAccesses|
          invariant forall k :: 0 <= k < j ==> accesses[k] == pending[i].storageAccesses[k].(reverted := true)
          invariant forall k :: j <= k < |accesses| ==> accesses[k] == pending[i].storageAccesses[k]
        {
          accesses := accesses[j := accesses[j].(reverted := true)];
        }
        assert accesses == FlagAccesses(pending[i].storageAccesses);
        flagged := flagged[i := flagged[i].(reverted := true, storageAccesses := accesses)];
      }
    }

    method OnSload(address: Address, key: Word, present: Word, depth: nat)
      modifies this
      ensures recorded == if old(recorded).None? then None
                          else Some(React(old(recorded).value, Sload(address, key, present, depth)))
    {
      if recorded.Some? && recorded.value != [] {
        AppendStorageAccess(StorageAccess(address, key, false, present, present, false), depth);
      }
    }

    method OnSstore(address: Address, key: Word, previous: Word, value: Word, depth: nat)
      modifies this
      ensures recorded == if old(recorded).None? then None
                          else Some(React(old(recorded).value, Sstore(address, key, previous, value, depth)))
    {
      if recorded.Some? && recorded.value != [] {
        AppendStorageAccess(StorageAccess(address, key, true, previous, value, false), depth);
      }
    }

    /** Record an access in the frame's own record, in its open Resume record or in a new one. */
    method AppendStorageAccess(access: StorageAccess, depth: nat)
      requires recorded.Some? && recorded.value != []
      modifies this
      ensures recorded == Some(OnTop(old(recorded).value, AppendAccess(Last(old(recorded).value), access, depth)))
    {
      var last := Last(recorded.value);
      if last != [] && last[0].depth < depth {
        if |last| == 1 {
          last := last[0 := WithAccess(last[0], access)];
        } else if last[|last| - 1].kind == Resume {
          last := last[|last| - 1 := WithAccess(last[|last| - 1], access)];
        } else {
          last := last + [ResumeRecord(last[0], access)];
        }
      }
      recorded := Some(recorded.value[|recorded.value| - 1 := last]);
    }

    method OnExt(kind: ExtKind, accessor: Address, address: Address, loaded: Option<AccountInfo>, chain: ChainInfo,
                 depth: nat)
      modifies this
      ensures recorded == if old(recorded).None? then None
                          else Some(React(old(recorded).value, Ext(kind, accessor, address, loaded, chain, depth)))
    {
      if recorded.Some? {
        var stack, record := recorded.value, ExtRecord(kind, accessor, address, loaded, chain, depth);
        if stack != [] {
          recorded := Some(stack[|stack| - 1 := stack[|stack| - 1] + [record]]);
        } else {
          recorded := Some([[record]]);
        }
      }
    }

    method OnSelfDestruct(accessor: Address, target: Address, loaded: Option<AccountInfo>, value: Word,
                          chain: ChainInfo, depth: nat)
      modifies this
      ensures recorded == if old(recorded).None? then None
                          else Some(React(old(recorded).value, Destruct(accessor, target, loaded, value, chain, depth)))
    {
      if recorded.Some? && recorded.value != [] {
        var stack := recorded.value;
        var record := DestructRecord(accessor, target, loaded, value, chain, depth);
        recorded := Some(stack[|stack| - 1 := stack[|stack| - 1] + [record]]);
      }
    }

    /** `stopAndReturnStateDiff`: hands out the flattened record; recording goes on from empty. */
    method StopAndReturnStateDiff() returns (records: Pending)
      modifies this
      ensures records == if old(recorded).Some? then Flatten(old(recorded).value) else []
      ensures recorded == Some([])
    {
      var stack := if recorded.Some? then recorded.value else [];
      recorded := Some([]);
      records := [];
      for i := 0 to |stack|
        invariant records == Flatten(stack[..i])
      {
        assert DropLast(stack[..i + 1]) == stack[..i];
        records := records + stack[i];
      }
      assert stack[..|stack|] == stack;
    }

    method GetStorageAccesses() returns (accesses: seq<StorageAccess>)
      ensures accesses == if recorded.Some? then StorageLog(Flatten(recorded.value)) else []
    {
      accesses := [];
      if recorded.Some? {
        var stack := recorded.value;
        for i := 0 to |stack|
          invariant accesses == StorageLog(Flatten(stack[..i]))
        {
          assert DropLast(stack[..i + 1]) == stack[..i];
          assert Flatten(stack[..i]) + stack[i][..0] == Flatten(stack[..i]);
          for j := 0 to |stack[i]|
            invariant accesses == StorageLog(Flatten(stack[..i]) + stack[i][..j])
          {
            StorageLogSnoc(Flatten(stack[..i]), stack[i], j);
            accesses := accesses + stack[i][j].storageAccesses;
          }
          assert stack[i][..|stack[i]|] == stack[i];
        }
        assert stack[..|stack|] == stack;
      }
    }

    /** `getStateDiff`: one old/new pair per slot, balance and nonce that changed. */
    method GetRecordedStateDiffs() returns (diffs: Diffs)
      ensures Reports(diffs, if recorded.Some? then Flatten(recorded.value) else [])
    {
      diffs := map[];
      if recorded.Some? {
        var stack := recorded.value;
        for i := 0 to |stack|
          invariant Reports(diffs, Flatten(stack[..i]))
        {
          assert DropLast(stack[..i + 1]) == stack[..i];
          assert Flatten(stack[..i]) + stack[i][..0] == Flatten(stack[..i]);
          for j := 0 to |stack[i]|
            invariant Reports(diffs, Flatten(stack[..i]) + stack[i][..j])
          {
            assert DropLast(Flatten(stack[..i]) + stack[i][..j + 1]) == Flatten(stack[..i]) + stack[i][..j];
            diffs := AddRecord(diffs, Flatten(stack[..i]) + stack[i][..j], stack[i][j]);
          }
          assert stack[i][..|stack[i]|] == stack[i];
        }
        assert stack[..|stack|] == stack;
      }
    }

    /** One round of the fold: a record with nothing to report is filtered out. */
    static method AddRecord(diffs: Diffs, ghost before: Pending, record: AccountAccess) returns (after: Diffs)
      requires Reports(diffs, before)
      ensures Reports(after, before + [record])
    {
      assert DropLast(before + [record]) == before;
      assert record.storageAccesses == [] ==> StorageLog(before + [record]) == StorageLog(before);
      after := diffs;
      if record.storageAccesses == [] && record.oldBalance == record.newBalance && record.oldNonce == record.newNonce {
        return;
      }
      if record.oldBalance != record.newBalance {
        var entry := if record.account in after then after[record.account] else EMPTY_DIFF;
        if entry.balance.Some? {
          entry := entry.(balance := Some(entry.balance.value.(next := record.newBalance)));
        } else {
          entry := entry.(balance := Some(Change(record.oldBalance, record.newBalance)));
        }
        after := after[record.account := entry];
      }
      if record.oldNonce != record.newNonce {
        var entry := if record.account in after then after[record.account] else EMPTY_DIFF;
        if entry.nonce.Some? {
          entry := entry.(nonce := Some(entry.nonce.value.(next := record.newNonce)));
        } else {
          entry := entry.(nonce := Some(Change(record.oldNonce, record.newNonce)));
        }
        after := after[record.account := entry];
      }
      after := AddStorage(after, StorageLog(before), record.storageAccesses);
    }

    static method AddStorage(diffs: Diffs, ghost log: seq<StorageAccess>, accesses: seq<StorageAccess>)
      returns (after: Diffs)
      requires forall a, k :: LookupSlot(diffs, a, k) == SlotDiff(log, a, k)
      ensures forall a, k :: LookupSlot(after, a, k) == SlotDiff(log + accesses, a, k)
      ensures forall a :: LookupBalance(after, a) == LookupBalance(diffs, a)
      ensures forall a :: LookupNonce(after, a) == LookupNonce(diffs, a)
    {
      after := diffs;
      assert log + accesses[..0] == log;
      for i := 0 to |accesses|
        invariant forall a, k :: LookupSlot(after, a, k) == SlotDiff(log + accesses[..i], a, k)
        invariant forall a :: LookupBalance(after, a) == LookupBalance(diffs, a)
        invariant forall a :: LookupNonce(after, a) == LookupNonce(diffs, a)
      {
        var access := accesses[i];
        assert DropLast(log + accesses[..i + 1]) == log + accesses[..i];
        if access.isWrite && !access.reverted {
          var entry := if access.account in after then after[access.account] else EMPTY_DIFF;
          if access.slot in entry.slots {
            var change := entry.slots[access.slot];
            entry := entry.(slots := entry.slots[access.slot := change.(next := access.newValue)]);
          } else {
            entry := entry.(slots := entry.slots[access.slot := Change(access.previousValue, access.newValue)]);
          }
          after := after[access.account := entry];
        }
      }
      assert accesses[..|accesses|] == accesses;
    }
  }
}
