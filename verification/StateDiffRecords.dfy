/** What the records say, field by field: what each hook writes into them from its inputs, and what the
    diff reports of them. */
module StateDiffRecords {
  import opened Common
  import opened StateDiff

  // ---- What the hooks write --------------------------------------------------------------

  /** Everything that a record starts without. */
  predicate IsBlank(r: AccountAccess) {
    !r.reverted && r.deployedCode == [] && r.storageAccesses == []
  }

  /** The account as it was found; an account that cannot be loaded counts as empty. */
  predicate FoundAs(r: AccountAccess, loaded: Option<AccountInfo>) {
    match loaded
    case None => !r.initialized && r.oldBalance == 0 && r.oldNonce == 0
    case Some(info) => r.initialized == info.initialized && r.oldBalance == info.balance && r.oldNonce == info.nonce
  }

  /** The hook has pushed a vector of one record. */
  predicate Pushed(stack: Stack, after: Stack) {
    |after| == |stack| + 1 && after[..|stack|] == stack && |after[|stack|]| == 1
  }

  /** The hook has appended one record to the top vector. */
  predicate Appended(stack: Stack, after: Stack) {
    && stack != [] && |after| == |stack| && DropLast(after) == DropLast(stack)
    && |Last(after)| == |Last(stack)| + 1 && DropLast(Last(after)) == Last(stack)
  }

  /** A call to any target but the cheatcode and console addresses opens a vector with the record of
      the call: the caller accesses the account whose code runs. */
  lemma CallIsRecorded(stack: Stack, call: CallInputs, loaded: Option<AccountInfo>, chain: ChainInfo, depth: nat)
    requires call.targetAddress != 0x7109709ECfa91a80626fF3989D68f67F5b1DD12D
    requires call.targetAddress != 0x000000000000000000636F6e736F6c652e6c6f67
    ensures var after := React(stack, CallStarts(call, loaded, chain, depth));
            && Pushed(stack, after)
            && var r := Last(Last(after));
               && r.accessor == call.caller && r.account == call.bytecodeAddress && r.kind == call.scheme
               && r.value == call.value && r.data == call.data && r.depth == depth && r.chainInfo == chain
               && FoundAs(r, loaded) && r.newBalance == 0 && r.newNonce == 0 && IsBlank(r)
  {
  }

  /** Cheatcode and console calls leave the record alone, at their start and at their end. */
  lemma CheatcodesAreSkipped(stack: Stack, call: CallInputs, loaded: Option<AccountInfo>, chain: ChainInfo, depth: nat,
                             isRevert: bool)
    requires call.targetAddress == 0x7109709ECfa91a80626fF3989D68f67F5b1DD12D
          || call.targetAddress == 0x000000000000000000636F6e736F6c652e6c6f67
    ensures React(stack, CallStarts(call, loaded, chain, depth)) == stack
    ensures React(stack, CallEnds(call.targetAddress, isRevert, loaded, depth)) == stack
  {
  }

  lemma CreateIsRecorded(stack: Stack, create: CreateInputs, chain: ChainInfo, depth: nat)
    ensures var after := React(stack, CreateStarts(create, chain, depth));
            && Pushed(stack, after)
            && var r := Last(Last(after));
               && r.accessor == create.caller && r.account == create.address && r.kind == Create
               && r.value == create.value && r.data == create.initCode && r.depth == depth && r.chainInfo == chain
               && r.initialized && r.oldBalance == 0 && r.newBalance == 0 && r.oldNonce == 0 && r.newNonce == 1
               && IsBlank(r)
  {
  }

  /** An EXT* access joins the running vector, or starts the stack; it changes nothing of the account. */
  lemma ExtIsRecorded(stack: Stack, kind: ExtKind, accessor: Address, address: Address, loaded: Option<AccountInfo>,
                      chain: ChainInfo, depth: nat)
    ensures var after := React(stack, Ext(kind, accessor, address, loaded, chain, depth));
            && (if stack == [] then Pushed(stack, after) else Appended(stack, after))
            && var r := Last(Last(after));
               && r.accessor == accessor && r.account == address && r.kind == kind
               && r.value == 0 && r.data == [] && r.depth == depth && r.chainInfo == chain
               && FoundAs(r, loaded) && r.newBalance == r.oldBalance && r.newNonce == r.oldNonce && IsBlank(r)
  {
  }

  /** A self-destruct pays the beneficiary, in 256 bits; on an empty stack it is not recorded. */
  lemma DestructIsRecorded(stack: Stack, accessor: Address, target: Address, loaded: Option<AccountInfo>, value: Word,
                           chain: ChainInfo, depth: nat)
    ensures var after := React(stack, Destruct(accessor, target, loaded, value, chain, depth));
            if stack == [] then after == []
            else
              && Appended(stack, after)
              && var r := Last(Last(after));
                 && r.accessor == accessor && r.account == target && r.kind == SelfDestruct
                 && r.value == value && r.data == [] && r.depth == depth && r.chainInfo == chain
                 && FoundAs(r, loaded) && r.newBalance == (r.oldBalance + value) % U256 && r.newNonce == r.oldNonce
                 && IsBlank(r)
  {
  }

  /** What one access says. */
  predicate Says(a: StorageAccess, address: Address, key: Word, isWrite: bool, previous: Word, value: Word) {
    && a.account == address && a.slot == key && a.isWrite == isWrite
    && a.previousValue == previous && a.newValue == value && !a.reverted
  }

  /** A Resume record for the frame that a vector belongs to. */
  predicate Resumes(r: AccountAccess, entry: AccountAccess) {
    && r.kind == Resume && r.accessor == entry.accessor && r.account == entry.account && r.depth == entry.depth
    && r.chainInfo == entry.chainInfo && r.initialized == entry.initialized && r.reverted == entry.reverted
    && r.oldBalance == r.newBalance == 0 && r.oldNonce == r.newNonce == 0 && r.value == 0 && r.data == []
    && r.deployedCode == []
  }

  /** Where a storage access goes: into the sole record of its frame's vector, into a Resume record that
      ends the vector, or into a new Resume record for the frame. */
  predicate Lands(was: Pending, top: Pending, address: Address, key: Word, isWrite: bool, previous: Word, value: Word)
    requires was != []
  {
    if |was| == 1 || Last(was).kind == Resume then
      && |top| == |was| && DropLast(top) == DropLast(was)
      && var accesses := Last(top).storageAccesses;
         && accesses != [] && DropLast(accesses) == Last(was).storageAccesses
         && Last(top) == Last(was).(storageAccesses := accesses)
         && Says(Last(accesses), address, key, isWrite, previous, value)
    else
      && |top| == |was| + 1 && DropLast(top) == was && Resumes(Last(top), was[0])
      && |Last(top).storageAccesses| == 1
      && Says(Last(top).storageAccesses[0], address, key, isWrite, previous, value)
  }

  /** A load says the present value twice, a store the value it replaces and the one it leaves. The
      frame that runs has a record of its own exactly when it runs deeper than its vector's first. */
  lemma AccessIsRecorded(stack: Stack, address: Address, key: Word, isWrite: bool, previous: Word, value: Word,
                         depth: nat)
    requires isWrite || value == previous
    ensures var hook := if isWrite then Sstore(address, key, previous, value, depth)
                        else Sload(address, key, previous, depth);
            var after := React(stack, hook);
            if stack == [] || Last(stack) == [] || Last(stack)[0].depth >= depth then after == stack
            else
              && |after| == |stack| && DropLast(after) == DropLast(stack)
              && Lands(Last(stack), Last(after), address, key, isWrite, previous, value)
  {
    if stack != [] {
      var access := StorageAccess(address, key, isWrite, previous, value, false);
      var hook := if isWrite then Sstore(address, key, previous, value, depth)
                  else Sload(address, key, previous, depth);
      var top := AppendAccess(Last(stack), access, depth);
      assert React(stack, hook) == OnTop(stack, top);
      assert top == Last(stack) ==> OnTop(stack, top) == stack;
      AccessLands(Last(stack), access, depth);
    }
  }

  lemma AccessLands(was: Pending, access: StorageAccess, depth: nat)
    requires !access.reverted
    ensures var top := AppendAccess(was, access, depth);
            if was == [] || was[0].depth >= depth then top == was
            else Lands(was, top, access.account, access.slot, access.isWrite, access.previousValue, access.newValue)
  {
  }

  /** The root frame's end is not recorded. */
  lemma RootEndIsSkipped(stack: Stack, target: Address, isRevert: bool, loaded: Option<AccountInfo>)
    ensures React(stack, CallEnds(target, isRevert, loaded, 0)) == stack
    ensures React(stack, CreateEnds(isRevert, loaded, 0)) == stack
  {
  }

  /** What a frame's end makes of a record: flagged with its accesses if the frame reverted, and, for
      the frame's own record, completed with the account as it is left. */
  predicate EndedAs(r: AccountAccess, t: AccountAccess, isRevert: bool, left: Option<AccountInfo>, isCreate: bool) {
    && t.accessor == r.accessor && t.account == r.account && t.kind == r.kind && t.depth == r.depth
    && t.chainInfo == r.chainInfo && t.initialized == r.initialized && t.value == r.value && t.data == r.data
    && t.oldBalance == r.oldBalance && t.oldNonce == r.oldNonce
    && t.reverted == (r.reverted || isRevert)
    && |t.storageAccesses| == |r.storageAccesses|
    && (forall k :: 0 <= k < |r.storageAccesses| ==>
          t.storageAccesses[k] == r.storageAccesses[k].(reverted := r.storageAccesses[k].reverted || isRevert))
    && t.newBalance == (if left.Some? then left.value.balance else r.newBalance)
    && t.newNonce == (if left.Some? then left.value.nonce else r.newNonce)
    && t.deployedCode == (if left.Some? && isCreate then left.value.code else r.deployedCode)
  }

  /** The frame's own record is the first of the vector, if it was made at the depth that ends; the
      vector joins the one below it, or stays as the bottom. */
  lemma FrameEndIsRecorded(stack: Stack, target: Address, isRevert: bool, loaded: Option<AccountInfo>, isCreate: bool,
                           depth: nat, i: nat)
    requires stack != [] && i < |Last(stack)| && depth > 0
    requires target != 0x7109709ECfa91a80626fF3989D68f67F5b1DD12D
    requires target != 0x000000000000000000636F6e736F6c652e6c6f67
    ensures var hook := if isCreate then CreateEnds(isRevert, loaded, depth)
                        else CallEnds(target, isRevert, loaded, depth);
            var after := React(stack, hook);
            var rest := DropLast(stack);
            var below := if rest == [] then [] else Last(rest);
            && after != [] && |Last(after)| == |below| + |Last(stack)| && Last(after)[..|below|] == below
            && DropLast(after) == (if rest == [] then [] else DropLast(rest))
            && EndedAs(Last(stack)[i], Last(after)[|below| + i], isRevert,
                       if i == 0 && Last(stack)[0].depth == depth then loaded else None, isCreate)
  {
    var hook := if isCreate then CreateEnds(isRevert, loaded, depth) else CallEnds(target, isRevert, loaded, depth);
    HookMerges(stack, hook, target, isRevert, loaded, isCreate, depth);
    MergedIsRecorded(DropLast(stack), Last(stack), React(stack, hook), isRevert, loaded, isCreate, depth, i);
  }

  lemma MergedIsRecorded(rest: Stack, was: Pending, after: Stack, isRevert: bool, loaded: Option<AccountInfo>,
                         isCreate: bool, depth: nat, i: nat)
    requires i < |was|
    requires after == Merge(rest, Settle(if isRevert then Flag(was) else was, loaded, isCreate, depth))
    ensures var below := if rest == [] then [] else Last(rest);
            && after != [] && |Last(after)| == |below| + |was| && Last(after)[..|below|] == below
            && DropLast(after) == (if rest == [] then [] else DropLast(rest))
            && EndedAs(was[i], Last(after)[|below| + i], isRevert,
                       if i == 0 && was[0].depth == depth then loaded else None, isCreate)
  {
    var settled := Settle(if isRevert then Flag(was) else was, loaded, isCreate, depth);
    EndMerges(rest, was, settled, isRevert, loaded, isCreate, depth, i);
  }

  lemma HookMerges(stack: Stack, hook: Hook, target: Address, isRevert: bool, loaded: Option<AccountInfo>,
                   isCreate: bool, depth: nat)
    requires stack != [] && depth > 0 && !IsSkipped(target)
    requires hook == if isCreate then CreateEnds(isRevert, loaded, depth) else CallEnds(target, isRevert, loaded, depth)
    ensures var popped := if isRevert then Flag(Last(stack)) else Last(stack);
            React(stack, hook) == Merge(DropLast(stack), Settle(popped, loaded, isCreate, depth))
  {
  }

  lemma EndMerges(stack: Stack, was: Pending, settled: Pending, isRevert: bool, loaded: Option<AccountInfo>,
                  isCreate: bool, depth: nat, i: nat)
    requires settled == Settle(if isRevert then Flag(was) else was, loaded, isCreate, depth) && i < |was|
    ensures var after, below := Merge(stack, settled), if stack == [] then [] else Last(stack);
            && after != [] && DropLast(after) == (if stack == [] then [] else DropLast(stack))
            && |Last(after)| == |below| + |was| && Last(after)[..|below|] == below
            && EndedAs(was[i], Last(after)[|below| + i], isRevert,
                       if i == 0 && was[0].depth == depth then loaded else None, isCreate)
  {
    assert |settled| == |was| && EndedAs(was[i], settled[i], isRevert,
                                         if i == 0 && was[0].depth == depth then loaded else None, isCreate) by {
      SettledAs(was, isRevert, loaded, isCreate, depth, i);
    }
    MergedOnto(stack, settled, i);
  }

  lemma MergedOnto(stack: Stack, settled: Pending, i: nat)
    requires i < |settled|
    ensures var after, below := Merge(stack, settled), if stack == [] then [] else Last(stack);
            && after != [] && DropLast(after) == (if stack == [] then [] else DropLast(stack))
            && |Last(after)| == |below| + |settled|
            && Last(after)[..|below|] == below && Last(after)[|below| + i] == settled[i]
  {
  }

  lemma SettledAs(was: Pending, isRevert: bool, loaded: Option<AccountInfo>, isCreate: bool, depth: nat, i: nat)
    requires i < |was|
    ensures var settled := Settle(if isRevert then Flag(was) else was, loaded, isCreate, depth);
            && |settled| == |was|
            && EndedAs(was[i], settled[i], isRevert, if i == 0 && was[0].depth == depth then loaded else None, isCreate)
  {
    var popped := if isRevert then Flag(was) else was;
    assert |popped| == |was| && EndedAs(was[i], popped[i], isRevert, None, isCreate) by {
      FlaggedAs(was, i, isCreate);
      assert EndedAs(was[i], was[i], false, None, isCreate);
    }
    assert popped[0].depth == was[0].depth;
    CompletedAs(was[i], popped, isRevert, loaded, isCreate, depth, i);
  }

  lemma FlaggedAs(was: Pending, i: nat, isCreate: bool)
    requires i < |was|
    ensures |Flag(was)| == |was| && EndedAs(was[i], Flag(was)[i], true, None, isCreate)
  {
    assert Flag(was)[i] == FlagRecord(was[i]);
  }

  lemma CompletedAs(r: AccountAccess, popped: Pending, isRevert: bool, loaded: Option<AccountInfo>, isCreate: bool,
                    depth: nat, i: nat)
    requires i < |popped| && EndedAs(r, popped[i], isRevert, None, isCreate)
    ensures var settled := Settle(popped, loaded, isCreate, depth);
            && |settled| == |popped|
            && EndedAs(r, settled[i], isRevert, if i == 0 && popped[0].depth == depth then loaded else None, isCreate)
  {
  }

  // ---- What the diff reports -------------------------------------------------------------

  predicate ChangesBalance(r: AccountAccess, account: Address) {
    r.account == account && r.oldBalance != r.newBalance
  }

  predicate ChangesNonce(r: AccountAccess, account: Address) {
    r.account == account && r.oldNonce != r.newNonce
  }

  lemma {:induction false} BalanceDiffIsFirstAndLast(records: Pending, account: Address, i: nat, j: nat)
    requires i <= j < |records| && ChangesBalance(records[i], account) && ChangesBalance(records[j], account)
    requires forall k :: 0 <= k < i || j < k < |records| ==> !ChangesBalance(records[k], account)
    ensures BalanceDiff(records, account) == Some(Change(records[i].oldBalance, records[j].newBalance))
  {
    var before := DropLast(records);
    if j < |before| {
      BalanceDiffIsFirstAndLast(before, account, i, j);
    } else if i == j {
      NoBalanceDiffIff(before, account);
    } else {
      var last := LastBalanceChange(before, account, i);
      BalanceDiffIsFirstAndLast(before, account, i, last);
    }
  }

  lemma {:induction false} NoBalanceDiffIff(records: Pending, account: Address)
    ensures BalanceDiff(records, account) == None <==>
            forall k :: 0 <= k < |records| ==> !ChangesBalance(records[k], account)
  {
    if records != [] {
      NoBalanceDiffIff(DropLast(records), account);
      assert ChangesBalance(Last(records), account) == ChangesBalance(records[|records| - 1], account);
      assert forall k :: 0 <= k < |records| - 1 ==> records[k] == DropLast(records)[k];
    }
  }

  lemma {:induction false} LastBalanceChange(records: Pending, account: Address, i: nat) returns (j: nat)
    requires i < |records| && ChangesBalance(records[i], account)
    ensures i <= j < |records| && ChangesBalance(records[j], account)
    ensures forall k :: j < k < |records| ==> !ChangesBalance(records[k], account)
  {
    j := |records| - 1;
    if !ChangesBalance(records[j], account) {
      j := LastBalanceChange(DropLast(records), account, i);
    }
  }

  lemma {:induction false} NonceDiffIsFirstAndLast(records: Pending, account: Address, i: nat, j: nat)
    requires i <= j < |records| && ChangesNonce(records[i], account) && ChangesNonce(records[j], account)
    requires forall k :: 0 <= k < i || j < k < |records| ==> !ChangesNonce(records[k], account)
    ensures NonceDiff(records, account) == Some(Change(records[i].oldNonce, records[j].newNonce))
  {
    var before := DropLast(records);
    if j < |before| {
      NonceDiffIsFirstAndLast(before, account, i, j);
    } else if i == j {
      NoNonceDiffIff(before, account);
    } else {
      var last := LastNonceChange(before, account, i);
      NonceDiffIsFirstAndLast(before, account, i, last);
    }
  }

  lemma {:induction false} NoNonceDiffIff(records: Pending, account: Address)
    ensures NonceDiff(records, account) == None <==>
            forall k :: 0 <= k < |records| ==> !ChangesNonce(records[k], account)
  {
    if records != [] {
      NoNonceDiffIff(DropLast(records), account);
      assert ChangesNonce(Last(records), account) == ChangesNonce(records[|records| - 1], account);
      assert forall k :: 0 <= k < |records| - 1 ==> records[k] == DropLast(records)[k];
    }
  }

  lemma {:induction false} LastNonceChange(records: Pending, account: Address, i: nat) returns (j: nat)
    requires i < |records| && ChangesNonce(records[i], account)
    ensures i <= j < |records| && ChangesNonce(records[j], account)
    ensures forall k :: j < k < |records| ==> !ChangesNonce(records[k], account)
  {
    j := |records| - 1;
    if !ChangesNonce(records[j], account) {
      j := LastNonceChange(DropLast(records), account, i);
    }
  }

  /** Whatever map `getStateDiff` builds: a balance is reported exactly when a record changed it, from
      what it was before the first change to what the last change left. Reverted records count too. */
  lemma {:induction false} ReportedBalance(diffs: Diffs, records: Pending, account: Address, i: nat, j: nat)
    requires Reports(diffs, records)
    ensures var pair := if account in diffs then diffs[account].balance else None;
            && (pair == None <==> forall k :: 0 <= k < |records| ==> !ChangesBalance(records[k], account))
            && (IsFirstAndLastBalance(records, account, i, j) ==>
                  pair == Some(Change(records[i].oldBalance, records[j].newBalance)))
  {
    assert LookupBalance(diffs, account) == BalanceDiff(records, account);
    NoBalanceDiffIff(records, account);
    if IsFirstAndLastBalance(records, account, i, j) {
      BalanceDiffIsFirstAndLast(records, account, i, j);
    }
  }

  ghost predicate IsFirstAndLastBalance(records: Pending, account: Address, i: nat, j: nat) {
    && i <= j < |records| && ChangesBalance(records[i], account) && ChangesBalance(records[j], account)
    && forall k :: 0 <= k < i || j < k < |records| ==> !ChangesBalance(records[k], account)
  }

  lemma {:induction false} ReportedNonce(diffs: Diffs, records: Pending, account: Address, i: nat, j: nat)
    requires Reports(diffs, records)
    ensures var pair := if account in diffs then diffs[account].nonce else None;
            && (pair == None <==> forall k :: 0 <= k < |records| ==> !ChangesNonce(records[k], account))
            && (IsFirstAndLastNonce(records, account, i, j) ==>
                  pair == Some(Change(records[i].oldNonce, records[j].newNonce)))
  {
    assert LookupNonce(diffs, account) == NonceDiff(records, account);
    NoNonceDiffIff(records, account);
    if IsFirstAndLastNonce(records, account, i, j) {
      NonceDiffIsFirstAndLast(records, account, i, j);
    }
  }

  ghost predicate IsFirstAndLastNonce(records: Pending, account: Address, i: nat, j: nat) {
    && i <= j < |records| && ChangesNonce(records[i], account) && ChangesNonce(records[j], account)
    && forall k :: 0 <= k < i || j < k < |records| ==> !ChangesNonce(records[k], account)
  }

  /** The same of a slot, for which only the writes that survived count. */
  lemma {:induction false} ReportedSlot(diffs: Diffs, records: Pending, account: Address, slot: Word, i: nat, j: nat)
    requires Reports(diffs, records)
    ensures var accesses := StorageLog(records);
            var pair := if account in diffs && slot in diffs[account].slots then Some(diffs[account].slots[slot])
                        else None;
            && (pair == None <==> NoWriteLives(accesses, account, slot))
            && (IsFirstAndLastWrite(accesses, account, slot, i, j) ==>
                  pair == Some(Change(accesses[i].previousValue, accesses[j].newValue)))
  {
    var accesses := StorageLog(records);
    assert LookupSlot(diffs, account, slot) == SlotDiff(accesses, account, slot);
    NoSlotDiffIff(accesses, account, slot);
    if IsFirstAndLastWrite(accesses, account, slot, i, j) {
      SlotDiffIsFirstAndLast(accesses, account, slot, i, j);
    }
  }

  ghost predicate IsFirstAndLastWrite(accesses: seq<StorageAccess>, account: Address, slot: Word, i: nat, j: nat) {
    && i <= j < |accesses| && IsLiveWrite(accesses[i], account, slot) && IsLiveWrite(accesses[j], account, slot)
    && forall k :: 0 <= k < i || j < k < |accesses| ==> !IsLiveWrite(accesses[k], account, slot)
  }

  ghost predicate NoWriteLives(accesses: seq<StorageAccess>, account: Address, slot: Word) {
    forall k :: 0 <= k < |accesses| ==> !IsLiveWrite(accesses[k], account, slot)
  }

  lemma {:induction false} NoSlotDiffIff(accesses: seq<StorageAccess>, account: Address, slot: Word)
    ensures SlotDiff(accesses, account, slot) == None <==> NoWriteLives(accesses, account, slot)
  {
    if accesses != [] {
      NoSlotDiffIff(DropLast(accesses), account, slot);
      assert forall k :: 0 <= k < |accesses| - 1 ==> accesses[k] == DropLast(accesses)[k];
      assert IsLiveWrite(accesses[|accesses| - 1], account, slot) == IsLiveWrite(Last(accesses), account, slot);
    }
  }
}
