/** The recorder's stack read as one flat log, and the claim that the log is append-only under
    any sequence of hooks, balanced or not. */
module StateDiffLog {
  import opened Common
  import opened StateDiff

  /** A record's header (post-call fields blanked) or one storage access, each with its flag. */
  datatype Entry = Account(header: AccountAccess) | Storage(access: StorageAccess) {
    predicate IsReverted() {
      match this case Account(h) => h.reverted case Storage(a) => a.reverted
    }

    function WithFlag(flag: bool): Entry {
      match this
      case Account(h) => Account(h.(reverted := flag))
      case Storage(a) => Storage(a.(reverted := flag))
    }
  }

  type Log = seq<Entry>

  function Header(record: AccountAccess): AccountAccess {
    record.(newBalance := 0, newNonce := 0, deployedCode := [], storageAccesses := [])
  }

  function Entries(record: AccountAccess): Log {
    [Account(Header(record))] +
    seq(|record.storageAccesses|, i requires 0 <= i < |record.storageAccesses| => Storage(record.storageAccesses[i]))
  }

  function LogOf(records: Pending): Log {
    if records == [] then [] else LogOf(DropLast(records)) + Entries(Last(records))
  }

  function StackLog(stack: Stack): Log {
    LogOf(Flatten(stack))
  }

  function WithFlags(log: Log, flag: bool): Log {
    seq(|log|, i requires 0 <= i < |log| => log[i].WithFlag(flag))
  }

  /** What an access adds to the log: nothing, itself, or a Resume header and itself. */
  function AccessEntries(pending: Pending, access: StorageAccess, depth: nat): Log {
    if pending == [] || pending[0].depth >= depth then []
    else if |pending| == 1 || Last(pending).kind == Resume then [Storage(access)]
    else Entries(ResumeRecord(pending[0], access))
  }

  function Added(stack: Stack, hook: Hook): Log {
    match hook
    case CallStarts(call, loaded, chain, depth) =>
      if IsSkipped(call.targetAddress) then [] else [Account(Header(CallRecord(call, loaded, chain, depth)))]
    case CreateStarts(create, chain, depth) => [Account(Header(CreateRecord(create, chain, depth)))]
    case CallEnds(_, _, _, _) => []
    case CreateEnds(_, _, _) => []
    case Sload(address, key, present, depth) =>
      if stack == [] then []
      else AccessEntries(Last(stack), StorageAccess(address, key, false, present, present, false), depth)
    case Sstore(address, key, previous, value, depth) =>
      if stack == [] then []
      else AccessEntries(Last(stack), StorageAccess(address, key, true, previous, value, false), depth)
    case Ext(kind, accessor, address, loaded, chain, depth) =>
      [Account(Header(ExtRecord(kind, accessor, address, loaded, chain, depth)))]
    case Destruct(accessor, target, loaded, value, chain, depth) =>
      if stack == [] then [] else [Account(Header(DestructRecord(accessor, target, loaded, value, chain, depth)))]
  }

  // ---- The log of each stack operation ---------------------------------------------------

  lemma {:induction false} LogOfConcat(a: Pending, b: Pending)
    ensures LogOf(a + b) == LogOf(a) + LogOf(b)
  {
    if b == [] {
      assert a + b == a;
    } else {
      LogOfConcat(a, DropLast(b));
      calc {
        LogOf(a + b);
        { assert DropLast(a + b) == a + DropLast(b) && Last(a + b) == Last(b); }
        LogOf(a + DropLast(b)) + Entries(Last(b));
        (LogOf(a) + LogOf(DropLast(b))) + Entries(Last(b));
        { Associative(LogOf(a), LogOf(DropLast(b)), Entries(Last(b))); }
        LogOf(a) + LogOf(b);
      }
    }
  }

  lemma LogOfOne(record: AccountAccess)
    ensures LogOf([record]) == Entries(record)
  {
    assert DropLast([record]) == [];
  }

  lemma StackLogTop(stack: Stack, pending: Pending)
    ensures StackLog(stack + [pending]) == StackLog(stack) + LogOf(pending)
  {
    assert DropLast(stack + [pending]) == stack;
    LogOfConcat(Flatten(stack), pending);
  }

  lemma StackLogOnTop(stack: Stack, pending: Pending)
    requires stack != []
    ensures StackLog(stack) == StackLog(DropLast(stack)) + LogOf(Last(stack))
    ensures StackLog(OnTop(stack, pending)) == StackLog(DropLast(stack)) + LogOf(pending)
  {
    assert StackLog(stack) == StackLog(DropLast(stack)) + LogOf(Last(stack)) by {
      assert stack == DropLast(stack) + [Last(stack)];
      StackLogTop(DropLast(stack), Last(stack));
    }
    assert StackLog(OnTop(stack, pending)) == StackLog(DropLast(stack)) + LogOf(pending) by {
      assert OnTop(stack, pending) == DropLast(stack) + [pending];
      StackLogTop(DropLast(stack), pending);
    }
  }

  lemma {:induction false} LogOfFlag(pending: Pending)
    ensures LogOf(Flag(pending)) == WithFlags(LogOf(pending), true)
  {
    if pending != [] {
      assert DropLast(Flag(pending)) == Flag(DropLast(pending));
      LogOfFlag(DropLast(pending));
      assert Entries(FlagRecord(Last(pending))) == WithFlags(Entries(Last(pending)), true);
    }
  }

  lemma LogOfSettle(pending: Pending, loaded: Option<AccountInfo>, isCreate: bool, depth: nat)
    ensures LogOf(Settle(pending, loaded, isCreate, depth)) == LogOf(pending)
  {
    var settled := Settle(pending, loaded, isCreate, depth);
    if settled != pending {
      assert settled == [settled[0]] + pending[1..] && pending == [pending[0]] + pending[1..];
      LogOfConcat([settled[0]], pending[1..]);
      LogOfConcat([pending[0]], pending[1..]);
      LogOfOne(settled[0]);
      LogOfOne(pending[0]);
    }
  }

  lemma LogOfAppendAccess(pending: Pending, access: StorageAccess, depth: nat)
    ensures LogOf(AppendAccess(pending, access, depth)) == LogOf(pending) + AccessEntries(pending, access, depth)
  {
    var after := AppendAccess(pending, access, depth);
    if pending == [] || pending[0].depth >= depth {
    } else if |pending| == 1 || Last(pending).kind == Resume {
      assert DropLast(after) == DropLast(pending);
      assert Entries(Last(after)) == Entries(Last(pending)) + [Storage(access)];
    } else {
      assert DropLast(after) == pending;
    }
  }

  lemma StackLogMerge(stack: Stack, pending: Pending)
    ensures StackLog(Merge(stack, pending)) == StackLog(stack) + LogOf(pending)
  {
    if pending != [] {
      if stack == [] {
        StackLogTop([], pending);
        assert [] + [pending] == [pending];
      } else {
        StackLogOnTop(stack, Last(stack) + pending);
        LogOfConcat(Last(stack), pending);
      }
    }
  }

  lemma StackLogFrameEnds(stack: Stack, isRevert: bool, loaded: Option<AccountInfo>, isCreate: bool, depth: nat)
    requires stack != [] && depth != 0
    ensures StackLog(FrameEnds(stack, isRevert, loaded, isCreate, depth)) ==
            StackLog(DropLast(stack)) +
            (if isRevert then WithFlags(LogOf(Last(stack)), true) else LogOf(Last(stack)))
    ensures StackLog(stack) == StackLog(DropLast(stack)) + LogOf(Last(stack))
  {
    var popped := if isRevert then Flag(Last(stack)) else Last(stack);
    LogOfFlag(Last(stack));
    LogOfSettle(popped, loaded, isCreate, depth);
    StackLogMerge(DropLast(stack), Settle(popped, loaded, isCreate, depth));
    StackLogOnTop(stack, []);
  }

  // ---- Append-only -----------------------------------------------------------------------

  /** Every hook leaves the old log in place, entry by entry, up to flags it raises. */
  ghost predicate Extends(before: Log, after: Log, added: Log) {
    && |after| == |before| + |added|
    && (forall i :: 0 <= i < |before| ==>
          after[i] == before[i] || (after[i] == before[i].WithFlag(true) && !before[i].IsReverted()))
    && after[|before|..] == added
  }

  lemma HookAppends(stack: Stack, hook: Hook)
    ensures Extends(StackLog(stack), StackLog(React(stack, hook)), Added(stack, hook))
  {
    if hook.CallEnds? {
      if IsSkipped(hook.target) {
        AppendedExtends(StackLog(stack), []);
        assert StackLog(stack) + [] == StackLog(stack);
      } else {
        FrameEndAppends(stack, hook.isRevert, hook.loaded, false, hook.depth);
      }
    } else if hook.CreateEnds? {
      FrameEndAppends(stack, hook.isRevert, hook.loaded, true, hook.depth);
    } else {
      assert StackLog(React(stack, hook)) == StackLog(stack) + Added(stack, hook) by {
        RecordingAppends(stack, hook);
      }
      AppendedExtends(StackLog(stack), Added(stack, hook));
    }
  }

  lemma AppendedExtends(before: Log, added: Log)
    ensures Extends(before, before + added, added)
  {
  }

  lemma RecordingAppends(stack: Stack, hook: Hook)
    requires !hook.CallEnds? && !hook.CreateEnds?
    ensures StackLog(React(stack, hook)) == StackLog(stack) + Added(stack, hook)
  {
    assert StackLog([]) == [] && [] + Added(stack, hook) == Added(stack, hook);
    assert StackLog(stack) + [] == StackLog(stack);
    match hook
    case CallStarts(call, loaded, chain, depth) =>
      PushAppends(stack, CallRecord(call, loaded, chain, depth));
    case CreateStarts(create, chain, depth) =>
      PushAppends(stack, CreateRecord(create, chain, depth));
    case Sload(address, key, present, depth) =>
      AccessAppends(stack, StorageAccess(address, key, false, present, present, false), depth);
    case Sstore(address, key, previous, value, depth) =>
      AccessAppends(stack, StorageAccess(address, key, true, previous, value, false), depth);
    case Ext(kind, accessor, address, loaded, chain, depth) =>
      RecordAppends(stack, ExtRecord(kind, accessor, address, loaded, chain, depth));
    case Destruct(accessor, target, loaded, value, chain, depth) =>
      RecordAppends(stack, DestructRecord(accessor, target, loaded, value, chain, depth));
  }

  lemma FrameEndAppends(stack: Stack, isRevert: bool, loaded: Option<AccountInfo>, isCreate: bool, depth: nat)
    ensures Extends(StackLog(stack), StackLog(FrameEnds(stack, isRevert, loaded, isCreate, depth)), [])
  {
    if stack != [] && depth != 0 {
      StackLogFrameEnds(stack, isRevert, loaded, isCreate, depth);
      FlagExtends(StackLog(DropLast(stack)), LogOf(Last(stack)));
    }
  }

  lemma FlagExtends(before: Log, top: Log)
    ensures Extends(before + top, before + WithFlags(top, true), [])
    ensures Extends(before + top, before + top, [])
  {
    forall i | 0 <= i < |top| && top[i].IsReverted()
      ensures top[i].WithFlag(true) == top[i]
    {
    }
  }

  lemma AccessAppends(stack: Stack, access: StorageAccess, depth: nat)
    ensures stack != [] ==>
      StackLog(OnTop(stack, AppendAccess(Last(stack), access, depth))) ==
      StackLog(stack) + AccessEntries(Last(stack), access, depth)
  {
    if stack != [] {
      LogOfAppendAccess(Last(stack), access, depth);
      StackLogOnTop(stack, AppendAccess(Last(stack), access, depth));
    }
  }

  lemma PushAppends(stack: Stack, record: AccountAccess)
    requires record.storageAccesses == []
    ensures StackLog(stack + [[record]]) == StackLog(stack) + [Account(Header(record))]
  {
    StackLogTop(stack, [record]);
    LogOfOne(record);
  }

  lemma RecordAppends(stack: Stack, record: AccountAccess)
    requires record.storageAccesses == []
    ensures stack == [] ==> StackLog([[record]]) == [Account(Header(record))]
    ensures stack != [] ==>
      StackLog(OnTop(stack, Last(stack) + [record])) == StackLog(stack) + [Account(Header(record))]
  {
    if stack == [] {
      assert StackLog([]) == [] && [] + [[record]] == [[record]];
      PushAppends([], record);
    } else {
      var below, top, entry := StackLog(DropLast(stack)), LogOf(Last(stack)), [Account(Header(record))];
      assert LogOf(Last(stack) + [record]) == top + entry by {
        LogOfOne(record);
        LogOfConcat(Last(stack), [record]);
      }
      StackLogOnTop(stack, Last(stack) + [record]);
      Associative(below, top, entry);
    }
  }

  function Reacts(stack: Stack, hooks: seq<Hook>): Stack {
    if hooks == [] then stack else React(Reacts(stack, DropLast(hooks)), Last(hooks))
  }

  /** Over any run of hooks, whatever was logged at any earlier point is still there, in place,
      with nothing changed but flags raised: nothing is dropped, duplicated or reordered. */
  lemma {:induction false} AppendOnly(stack: Stack, hooks: seq<Hook>, n: nat)
    requires n <= |hooks|
    ensures var before, after := StackLog(Reacts(stack, hooks[..n])), StackLog(Reacts(stack, hooks));
            |before| <= |after| && Extends(before, after, after[|before|..])
  {
    if n == |hooks| {
      assert hooks[..n] == hooks;
    } else {
      AppendOnly(stack, DropLast(hooks), n);
      assert DropLast(hooks)[..n] == hooks[..n];
      HookAppends(Reacts(stack, DropLast(hooks)), Last(hooks));
    }
  }

  /** The storage accesses alone, as `getStorageAccesses` lists them. */
  function StorageIn(log: Log): seq<StorageAccess> {
    if log == [] then [] else StorageIn(DropLast(log)) + StorageInEntry(Last(log))
  }

  function StorageInEntry(entry: Entry): seq<StorageAccess> {
    if entry.Storage? then [entry.access] else []
  }

  lemma {:induction false} StorageInConcat(a: Log, b: Log)
    ensures StorageIn(a + b) == StorageIn(a) + StorageIn(b)
  {
    if b == [] {
      assert a + b == a;
    } else {
      StorageInConcat(a, DropLast(b));
      calc {
        StorageIn(a + b);
        { assert DropLast(a + b) == a + DropLast(b) && Last(a + b) == Last(b); }
        StorageIn(a + DropLast(b)) + StorageInEntry(Last(b));
        (StorageIn(a) + StorageIn(DropLast(b))) + StorageInEntry(Last(b));
        { Associative(StorageIn(a), StorageIn(DropLast(b)), StorageInEntry(Last(b))); }
        StorageIn(a) + StorageIn(b);
      }
    }
  }

  lemma {:induction false} StorageInEntries(record: AccountAccess, n: nat)
    requires n <= |record.storageAccesses|
    ensures StorageIn(Entries(record)[..n + 1]) == record.storageAccesses[..n]
  {
    var es := Entries(record);
    assert DropLast(es[..n + 1]) == es[..n];
    if n > 0 {
      StorageInEntries(record, n - 1);
    }
  }

  lemma {:induction false} StorageLogIsInLog(records: Pending)
    ensures StorageLog(records) == StorageIn(LogOf(records))
  {
    if records != [] {
      var last := Last(records);
      StorageLogIsInLog(DropLast(records));
      assert StorageIn(Entries(last)) == last.storageAccesses by {
        StorageInEntries(last, |last.storageAccesses|);
        assert Entries(last)[..|Entries(last)|] == Entries(last);
      }
      StorageInConcat(LogOf(DropLast(records)), Entries(last));
    }
  }
}
