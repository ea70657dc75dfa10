/** On well-nested runs the recorded log is the run itself: every recorded event once, in order,
    flagged reverted if and only if a frame that contains it has been reverted. */
module StateDiffChronology {
  import opened Common
  import opened StateDiff
  import opened StateDiffLog
  import opened StateDiffRuns

  /** Event j reverts a frame that was entered at or before event i and was open through it. */
  predicate Undoes(es: seq<Event>, i: nat, j: nat)
    requires j < |es|
  {
    && i < j
    && IsExit(es[j]) && es[j].outcome == Revert
    && (Opens(es[..j]) == [] || Last(Opens(es[..j])) <= i)
  }

  predicate LastUndoes(es: seq<Event>, i: nat)
    requires es != []
  {
    Undoes(es, i, |es| - 1)
  }

  ghost predicate Undone(es: seq<Event>, i: nat) {
    exists j :: i < j < |es| && Undoes(es, i, j)
  }

  /** The entry an event leaves in the log, if it is recorded at all. `open` says that the frame
      that runs was entered during the run, `started` that something has been recorded. */
  function EntryOf(now: World, open: bool, started: bool, e: Event): Log {
    if IsExit(e) then []
    else if e.Load? || e.Store? then if open then [Storage(AccessOf(now, e))] else []
    else if e.Destroy? && !started then []
    else [Account(Header(RecordOf(now, e)))]
  }

  /** The entries of all events of a run. */
  function Trace(w: World, es: seq<Event>): (trace: seq<Log>)
    requires Runs(w, es)
    ensures |trace| == |es|
  {
    if es == [] then []
    else
      var before := DropLast(es);
      Trace(w, before) + [EntryOf(Run(w, before), Opens(before) != [], Started(before), Last(es))]
  }

  /** The chronicle of events lo..hi of a run, each with its flag. */
  ghost function Chronicle(trace: seq<Log>, es: seq<Event>, lo: nat, hi: nat): Log
    requires lo <= hi <= |trace|
  {
    if lo == hi then []
    else Chronicle(trace, es, lo, hi - 1) + WithFlags(trace[hi - 1], Undone(es, hi - 1))
  }

  /** The log without the headers of Resume records, which stand for no event. */
  function Visible(log: Log): Log {
    if log == [] then []
    else Visible(DropLast(log)) + VisibleEntry(Last(log))
  }

  function VisibleEntry(entry: Entry): Log {
    if entry.Account? && entry.header.kind == Resume then [] else [entry]
  }

  lemma {:induction false} VisibleConcat(a: Log, b: Log)
    ensures Visible(a + b) == Visible(a) + Visible(b)
  {
    if b == [] {
      assert a + b == a;
    } else {
      VisibleConcat(a, DropLast(b));
      calc {
        Visible(a + b);
        { assert DropLast(a + b) == a + DropLast(b) && Last(a + b) == Last(b); }
        Visible(a + DropLast(b)) + VisibleEntry(Last(b));
        (Visible(a) + Visible(DropLast(b))) + VisibleEntry(Last(b));
        { Associative(Visible(a), Visible(DropLast(b)), VisibleEntry(Last(b))); }
        Visible(a) + Visible(b);
      }
    }
  }

  lemma {:induction false} VisibleFlags(log: Log, flag: bool)
    ensures Visible(WithFlags(log, flag)) == WithFlags(Visible(log), flag)
  {
    if log != [] {
      assert DropLast(WithFlags(log, flag)) == WithFlags(DropLast(log), flag);
      VisibleFlags(DropLast(log), flag);
    }
  }

  lemma {:induction false} ChronicleSplit(trace: seq<Log>, es: seq<Event>, lo: nat, mid: nat, hi: nat)
    requires lo <= mid <= hi <= |trace|
    ensures Chronicle(trace, es, lo, hi) == Chronicle(trace, es, lo, mid) + Chronicle(trace, es, mid, hi)
  {
    if mid < hi {
      ChronicleSplit(trace, es, lo, mid, hi - 1);
      var entry := WithFlags(trace[hi - 1], Undone(es, hi - 1));
      Associative(Chronicle(trace, es, lo, mid), Chronicle(trace, es, mid, hi - 1), entry);
    } else {
      assert Chronicle(trace, es, lo, mid) + [] == Chronicle(trace, es, lo, mid);
    }
  }

  lemma FlagTwice(log: Log, flag: bool)
    ensures WithFlags(WithFlags(log, flag), true) == WithFlags(log, true)
  {
  }

  lemma UndoneSnoc(es: seq<Event>, i: nat)
    requires es != [] && i < |es| - 1
    ensures Undone(es, i) <==> Undone(DropLast(es), i) || LastUndoes(es, i)
  {
    var before := DropLast(es);
    forall j | i < j < |before|
      ensures Undoes(es, i, j) == Undoes(before, i, j)
    {
      assert es[..j] == before[..j];
    }
    if Undone(es, i) {
      var j :| i < j < |es| && Undoes(es, i, j);
      if j < |before| {
        assert Undoes(before, i, j);
      }
    }
    if Undone(before, i) {
      var j :| i < j < |before| && Undoes(before, i, j);
      assert Undoes(es, i, j);
    }
  }

  lemma EntrySnoc(entry: Log, es: seq<Event>, i: nat)
    requires es != [] && i < |es| - 1
    ensures WithFlags(entry, Undone(es, i)) ==
            var before := WithFlags(entry, Undone(DropLast(es), i));
            if LastUndoes(es, i) then WithFlags(before, true) else before
  {
    UndoneSnoc(es, i);
    FlagTwice(entry, Undone(DropLast(es), i));
  }

  /** One more event raises the flags of exactly the events it undoes. */
  lemma {:induction false} ChronicleSnoc(trace: seq<Log>, entry: Log, es: seq<Event>, lo: nat, hi: nat, undone: bool)
    requires es != [] && lo <= hi <= |trace| < |es|
    requires forall i :: lo <= i < hi ==> LastUndoes(es, i) == undone
    ensures Chronicle(trace + [entry], es, lo, hi) ==
            FlaggedIf(Chronicle(trace, DropLast(es), lo, hi), undone)
  {
    if lo < hi {
      var before := Chronicle(trace, DropLast(es), lo, hi - 1);
      var last := WithFlags(trace[hi - 1], Undone(DropLast(es), hi - 1));
      ChronicleSnoc(trace, entry, es, lo, hi - 1, undone);
      LastEntrySnoc(trace, entry, es, hi - 1, undone);
      JoinFlagged(before, last, undone);
    }
  }

  lemma LastEntrySnoc(trace: seq<Log>, entry: Log, es: seq<Event>, i: nat, undone: bool)
    requires es != [] && i < |trace| < |es| && LastUndoes(es, i) == undone
    ensures WithFlags((trace + [entry])[i], Undone(es, i)) ==
            FlaggedIf(WithFlags(trace[i], Undone(DropLast(es), i)), undone)
  {
    EntrySnoc(trace[i], es, i);
  }

  function FlaggedIf(log: Log, flag: bool): Log {
    if flag then WithFlags(log, true) else log
  }

  lemma JoinFlagged(a: Log, b: Log, flag: bool)
    ensures FlaggedIf(a, flag) + FlaggedIf(b, flag) == FlaggedIf(a + b, flag)
  {
    FlagConcat(a, b);
  }

  lemma FlagConcat(a: Log, b: Log)
    ensures WithFlags(a + b, true) == WithFlags(a, true) + WithFlags(b, true)
  {
  }

  // ---- The stack as a row of logs --------------------------------------------------------

  /** The visible log of a pending vector. */
  function PartOf(pending: Pending): Log {
    Visible(LogOf(pending))
  }

  function Parts(stack: Stack): (parts: seq<Log>)
    ensures |parts| == |stack|
  {
    if stack == [] then [] else Parts(DropLast(stack)) + [PartOf(Last(stack))]
  }

  lemma {:induction false} FlattenParts(stack: Stack)
    ensures Flatten(Parts(stack)) == Visible(StackLog(stack))
  {
    if stack == [] {
      assert StackLog([]) == [];
    } else {
      FlattenParts(DropLast(stack));
      StackLogOnTop(stack, Last(stack));
      VisibleConcat(StackLog(DropLast(stack)), LogOf(Last(stack)));
    }
  }

  /** What a step does to the row: open a part, extend the last one, or fold it into the part
      below it, flagged if the frame reverted. */
  function Entered(parts: seq<Log>, entry: Log): seq<Log> {
    parts + [entry]
  }

  function Extended(parts: seq<Log>, entry: Log): seq<Log> {
    if parts == [] then (if entry == [] then [] else [entry]) else DropLast(parts) + [Last(parts) + entry]
  }

  function Folded(parts: seq<Log>, isRevert: bool): seq<Log> {
    if parts == [] then []
    else
      var top := if isRevert then WithFlags(Last(parts), true) else Last(parts);
      if |parts| == 1 then [top] else DropLast(DropLast(parts)) + [Last(DropLast(parts)) + top]
  }

  function PartsAfter(parts: seq<Log>, e: Event, entry: Log): seq<Log> {
    if IsEnter(e) then Entered(parts, entry)
    else if IsExit(e) then Folded(parts, e.outcome == Revert)
    else Extended(parts, entry)
  }

  lemma VisibleOne(log: Log, entry: Entry)
    ensures (entry.Account? ==> entry.header.kind != Resume) ==> Visible(log + [entry]) == Visible(log) + [entry]
    ensures (entry.Account? && entry.header.kind == Resume) ==> Visible(log + [entry]) == Visible(log)
  {
    assert DropLast(log + [entry]) == log;
  }

  lemma AccessEntriesVisible(pending: Pending, access: StorageAccess, depth: nat)
    requires pending != [] && pending[0].depth < depth
    ensures Visible(AccessEntries(pending, access, depth)) == [Storage(access)]
  {
    if |pending| == 1 || Last(pending).kind == Resume {
      VisibleFirst(Storage(access));
    } else {
      ResumeVisible(ResumeRecord(pending[0], access), access);
    }
  }

  lemma ResumeVisible(resume: AccountAccess, access: StorageAccess)
    requires resume.kind == Resume && resume.storageAccesses == [access]
    ensures Visible(Entries(resume)) == [Storage(access)]
  {
    var header := Account(Header(resume));
    assert Entries(resume) == [header] + [Storage(access)];
    assert Visible([header]) == [] by {
      VisibleFirst(header);
    }
    VisibleOne([header], Storage(access));
    assert [] + [Storage(access)] == [Storage(access)];
  }

  lemma VisibleFirst(entry: Entry)
    ensures Visible([entry]) == VisibleEntry(entry)
  {
    assert DropLast([entry]) == [] && [] + VisibleEntry(entry) == VisibleEntry(entry);
  }

  lemma PartOfConcat(a: Pending, b: Pending)
    ensures PartOf(a + b) == PartOf(a) + PartOf(b)
  {
    LogOfConcat(a, b);
    VisibleConcat(LogOf(a), LogOf(b));
  }

  lemma PartOfRecord(w: World, e: Event)
    requires IsEnter(e) || e.Access? || e.Destroy?
    ensures PartOf([RecordOf(w, e)]) == [Account(Header(RecordOf(w, e)))]
  {
    PartOfOne(RecordOf(w, e));
  }

  lemma PartOfOne(record: AccountAccess)
    requires record.storageAccesses == [] && record.kind != Resume
    ensures PartOf([record]) == [Account(Header(record))]
  {
    var entry := Account(Header(record));
    assert LogOf([record]) == [entry] by {
      LogOfOne(record);
    }
    assert Visible([] + [entry]) == [] + [entry] by {
      VisibleOne([], entry);
    }
    assert [] + [entry] == [entry];
  }

  lemma PartOfAccess(pending: Pending, access: StorageAccess, depth: nat)
    requires pending != []
    ensures PartOf(AppendAccess(pending, access, depth)) ==
            PartOf(pending) + if pending[0].depth < depth then [Storage(access)] else []
  {
    LogOfAppendAccess(pending, access, depth);
    VisibleConcat(LogOf(pending), AccessEntries(pending, access, depth));
    if pending[0].depth < depth {
      AccessEntriesVisible(pending, access, depth);
    }
  }

  lemma PartOfEnd(pending: Pending, isRevert: bool, after: Option<AccountInfo>, isCreate: bool, depth: nat)
    ensures PartOf(Settle(if isRevert then Flag(pending) else pending, after, isCreate, depth)) ==
            if isRevert then WithFlags(PartOf(pending), true) else PartOf(pending)
  {
    LogOfFlag(pending);
    VisibleFlags(LogOf(pending), true);
    LogOfSettle(if isRevert then Flag(pending) else pending, after, isCreate, depth);
  }

  lemma PartsPush(stack: Stack, pending: Pending)
    ensures Parts(stack + [pending]) == Parts(stack) + [PartOf(pending)]
  {
    assert DropLast(stack + [pending]) == stack;
  }

  lemma PartsOnTop(stack: Stack, pending: Pending)
    requires stack != []
    ensures Parts(OnTop(stack, pending)) == Parts(DropLast(stack)) + [PartOf(pending)]
    ensures DropLast(Parts(stack)) == Parts(DropLast(stack)) && Last(Parts(stack)) == PartOf(Last(stack))
  {
    assert Parts(OnTop(stack, pending)) == Parts(DropLast(stack)) + [PartOf(pending)] by {
      assert OnTop(stack, pending) == DropLast(stack) + [pending];
      PartsPush(DropLast(stack), pending);
    }
  }

  lemma ExtendPart(stack: Stack, pending: Pending, entry: Log)
    requires stack != [] && PartOf(pending) == PartOf(Last(stack)) + entry
    ensures Parts(OnTop(stack, pending)) == Extended(Parts(stack), entry)
  {
    PartsOnTop(stack, pending);
  }

  lemma RecordParts(stack: Stack, record: AccountAccess, entry: Log)
    requires PartOf([record]) == entry != []
    ensures Parts(stack + [[record]]) == Entered(Parts(stack), entry)
    ensures if stack == [] then Parts([[record]]) == Extended([], entry)
            else Parts(OnTop(stack, Last(stack) + [record])) == Extended(Parts(stack), entry)
  {
    PartsPush(stack, [record]);
    if stack == [] {
      assert stack + [[record]] == [[record]];
    } else {
      PartOfConcat(Last(stack), [record]);
      ExtendPart(stack, Last(stack) + [record], entry);
    }
  }

  lemma AccessParts(stack: Stack, access: StorageAccess, depth: nat, entry: Log)
    requires stack != [] && Last(stack) != []
    requires entry == if Last(stack)[0].depth < depth then [Storage(access)] else []
    ensures Parts(OnTop(stack, AppendAccess(Last(stack), access, depth))) == Extended(Parts(stack), entry)
  {
    PartOfAccess(Last(stack), access, depth);
    ExtendPart(stack, AppendAccess(Last(stack), access, depth), entry);
  }

  lemma MergeParts(below: Stack, pending: Pending)
    requires pending != []
    ensures Parts(Merge(below, pending)) ==
            if below == [] then [PartOf(pending)]
            else DropLast(Parts(below)) + [Last(Parts(below)) + PartOf(pending)]
  {
    if below == [] {
      PartsPush([], pending);
      assert [] + [pending] == [pending];
    } else {
      PartOfConcat(Last(below), pending);
      PartsOnTop(below, Last(below) + pending);
    }
  }

  lemma EndParts(stack: Stack, isRevert: bool, after: Option<AccountInfo>, isCreate: bool, depth: nat)
    requires stack != [] ==> Last(stack) != []
    requires depth != 0
    ensures Parts(FrameEnds(stack, isRevert, after, isCreate, depth)) == Folded(Parts(stack), isRevert)
  {
    if stack != [] {
      var below, top := Parts(DropLast(stack)), PartOf(Last(stack));
      assert Parts(stack) == below + [top];
      PartOfEnd(Last(stack), isRevert, after, isCreate, depth);
      MergeParts(DropLast(stack), Settle(if isRevert then Flag(Last(stack)) else Last(stack), after, isCreate, depth));
    }
  }

  /** The recorder's step, seen on the row of logs. */
  lemma StepParts(w: World, e: Event, open: nat)
    requires Enabled(w, e) && Shape(w, open)
    ensures Parts(Step(w, e).stack) == PartsAfter(Parts(w.stack), e, EntryOf(w, open > 0, w.stack != [], e))
  {
    if IsExit(e) {
      ExitEventParts(w, e);
    } else if e.Load? || e.Store? {
      AccessEventParts(w, e, open);
    } else {
      assert Step(w, e).stack == StackAfterRecord(w, e) by {
        RecordStack(w, e);
      }
      RecordEventParts(w, e, StackAfterRecord(w, e), open > 0);
    }
  }

  lemma ExitEventParts(w: World, e: Event)
    requires Enabled(w, e) && IsExit(e)
    requires w.stack != [] ==> Last(w.stack) != []
    ensures Parts(Step(w, e).stack) == Folded(Parts(w.stack), e.outcome == Revert)
  {
    var stack, isRevert, after, isCreate, depth :=
      w.stack, e.outcome == Revert, e.after, e.ExitCreate?, |w.checkpoints| - 1;
    assert Step(w, e).stack == FrameEnds(stack, isRevert, after, isCreate, depth) by {
      ExitStack(w, e);
    }
    EndParts(stack, isRevert, after, isCreate, depth);
  }

  lemma AccessEventParts(w: World, e: Event, open: nat)
    requires Enabled(w, e) && (e.Load? || e.Store?) && Shape(w, open)
    ensures Parts(Step(w, e).stack) == Extended(Parts(w.stack), EntryOf(w, open > 0, true, e))
  {
    AccessStack(w, e);
    if w.stack != [] {
      AccessParts(w.stack, AccessOf(w, e), |w.checkpoints|, EntryOf(w, open > 0, true, e));
    }
  }

  lemma RecordEventParts(w: World, e: Event, after: Stack, open: bool)
    requires (IsEnter(e) || e.Access? || e.Destroy?) && after == StackAfterRecord(w, e)
    ensures Parts(after) == PartsAfter(Parts(w.stack), e, EntryOf(w, open, w.stack != [], e))
  {
    var entry := [Account(Header(RecordOf(w, e)))];
    RecordEventStack(w, e, after, entry);
    RecordEventEntry(w, e, open, Parts(w.stack), entry);
  }

  lemma RecordEventEntry(w: World, e: Event, open: bool, parts: seq<Log>, entry: Log)
    requires IsEnter(e) || e.Access? || e.Destroy?
    requires entry == [Account(Header(RecordOf(w, e)))] && |parts| == |w.stack|
    ensures PartsAfter(parts, e, EntryOf(w, open, w.stack != [], e)) ==
            if e.Destroy? && w.stack == [] then []
            else if IsEnter(e) then Entered(parts, entry)
            else Extended(parts, entry)
  {
  }

  lemma RecordEventStack(w: World, e: Event, after: Stack, entry: Log)
    requires IsEnter(e) || e.Access? || e.Destroy?
    requires after == StackAfterRecord(w, e) && entry == [Account(Header(RecordOf(w, e)))]
    ensures Parts(after) == if e.Destroy? && w.stack == [] then []
                            else if IsEnter(e) then Entered(Parts(w.stack), entry)
                            else Extended(Parts(w.stack), entry)
  {
    assert PartOf([RecordOf(w, e)]) == entry by {
      PartOfRecord(w, e);
    }
    RecordParts(w.stack, RecordOf(w, e), entry);
  }

  // ---- The row tiles the chronicle -------------------------------------------------------

  /** Up to event `hi`: the part of each open frame holds what came since its entry, up to the
      next frame's; the bottom part, which may be missing, holds what came before them all. */
  ghost predicate Tiles(parts: seq<Log>, trace: seq<Log>, es: seq<Event>, opens: seq<nat>, hi: nat)
    requires hi <= |trace|
    decreases opens
  {
    if opens == [] then
      if parts == [] then Chronicle(trace, es, 0, hi) == [] else parts == [Chronicle(trace, es, 0, hi)]
    else
      && parts != [] && Last(opens) <= hi
      && Last(parts) == Chronicle(trace, es, Last(opens), hi)
      && Tiles(DropLast(parts), trace, es, DropLast(opens), Last(opens))
  }

  lemma {:induction false} TilesFlatten(parts: seq<Log>, trace: seq<Log>, es: seq<Event>, opens: seq<nat>, hi: nat)
    requires hi <= |trace| && Tiles(parts, trace, es, opens, hi)
    ensures Flatten(parts) == Chronicle(trace, es, 0, hi)
    decreases opens
  {
    if opens == [] {
      if parts != [] {
        assert DropLast(parts) == [] && [] + Last(parts) == Last(parts);
      }
    } else {
      TilesFlatten(DropLast(parts), trace, es, DropLast(opens), Last(opens));
      ChronicleSplit(trace, es, 0, Last(opens), hi);
    }
  }

  /** What a step does not undo it leaves tiled. */
  lemma {:induction false} TilesStay(parts: seq<Log>, trace: seq<Log>, entry: Log, es: seq<Event>, opens: seq<nat>,
                                     hi: nat)
    requires es != [] && |trace| == |es| - 1 && hi <= |trace|
    requires Tiles(parts, trace, DropLast(es), opens, hi)
    requires forall i :: 0 <= i < hi ==> !LastUndoes(es, i)
    ensures Tiles(parts, trace + [entry], es, opens, hi)
    decreases opens
  {
    if opens == [] {
      ChronicleSnoc(trace, entry, es, 0, hi, false);
    } else {
      ChronicleSnoc(trace, entry, es, Last(opens), hi, false);
      TilesStay(DropLast(parts), trace, entry, es, DropLast(opens), Last(opens));
    }
  }

  /** Where the frame that runs was entered: the start of the run for the starting frame. */
  function EntryPoint(es: seq<Event>): (lo: nat)
    ensures lo <= |es|
  {
    OpensIncrease(es);
    if Opens(es) == [] then 0 else Last(Opens(es))
  }

  /** An exit undoes either nothing or what happened since the frame's entry. */
  lemma ExitUndoes(es: seq<Event>, i: nat)
    requires es != [] && IsExit(Last(es)) && i < |es| - 1
    ensures LastUndoes(es, i) <==> Last(es).outcome == Revert && EntryPoint(DropLast(es)) <= i
  {
    assert es[..|es| - 1] == DropLast(es);
  }

  lemma NothingAfterLast(es: seq<Event>)
    requires es != []
    ensures !Undone(es, |es| - 1)
  {
  }

  /** The chronicle from any point on grows by the entry of an event that is not an exit. */
  lemma TileGrows(trace: seq<Log>, entry: Log, es: seq<Event>, lo: nat)
    requires es != [] && |trace| == |es| - 1 && lo < |es| && !IsExit(Last(es))
    requires WithFlags(entry, false) == entry
    ensures Chronicle(trace + [entry], es, lo, |es|) == Chronicle(trace, DropLast(es), lo, |es| - 1) + entry
  {
    NothingAfterLast(es);
    ChronicleSnoc(trace, entry, es, lo, |es| - 1, false);
  }

  /** A frame's end flags the events since its entry if it reverts, and none before it. */
  lemma TileFolds(trace: seq<Log>, es: seq<Event>, lo: nat)
    requires es != [] && |trace| == |es| - 1 && IsExit(Last(es)) && lo <= EntryPoint(DropLast(es))
    ensures Chronicle(trace + [[]], es, lo, |es|) ==
            Chronicle(trace, DropLast(es), lo, EntryPoint(DropLast(es))) +
            var top := Chronicle(trace, DropLast(es), EntryPoint(DropLast(es)), |trace|);
            if Last(es).outcome == Revert then WithFlags(top, true) else top
  {
    var mid, n := EntryPoint(DropLast(es)), |trace|;
    forall i | 0 <= i < n
      ensures LastUndoes(es, i) <==> Last(es).outcome == Revert && mid <= i
    {
      ExitUndoes(es, i);
    }
    ChronicleSnoc(trace, [], es, lo, mid, false);
    ChronicleSnoc(trace, [], es, mid, n, Last(es).outcome == Revert);
    ChronicleSplit(trace + [[]], es, lo, mid, n);
    assert WithFlags([], Undone(es, n)) == [];
    assert Chronicle(trace + [[]], es, lo, n) + [] == Chronicle(trace + [[]], es, lo, n);
  }

  lemma EnterTiles(parts: seq<Log>, trace: seq<Log>, entry: Log, es: seq<Event>, opens: seq<nat>)
    requires es != [] && |trace| == |es| - 1 && Tiles(parts, trace, DropLast(es), opens, |trace|)
    requires IsEnter(Last(es)) && WithFlags(entry, false) == entry
    ensures Tiles(parts + [entry], trace + [entry], es, opens + [|es| - 1], |es|)
  {
    var parts', opens' := parts + [entry], opens + [|es| - 1];
    assert DropLast(parts') == parts && DropLast(opens') == opens;
    TileGrows(trace, entry, es, |es| - 1);
    assert [] + entry == entry;
    TilesStay(parts, trace, entry, es, opens, |trace|);
  }

  lemma ExtendTiles(parts: seq<Log>, trace: seq<Log>, entry: Log, es: seq<Event>, opens: seq<nat>)
    requires es != [] && |trace| == |es| - 1 && Tiles(parts, trace, DropLast(es), opens, |trace|)
    requires !IsEnter(Last(es)) && !IsExit(Last(es)) && WithFlags(entry, false) == entry
    ensures Tiles(Extended(parts, entry), trace + [entry], es, opens, |es|)
  {
    if opens == [] {
      TileGrows(trace, entry, es, 0);
      assert [] + entry == entry;
    } else {
      TileGrows(trace, entry, es, Last(opens));
      assert DropLast(Extended(parts, entry)) == DropLast(parts);
      TilesStay(DropLast(parts), trace, entry, es, DropLast(opens), Last(opens));
    }
  }

  /** The frame that ends is the last open one, or one that was open before the run. */
  lemma FoldTiles(parts: seq<Log>, trace: seq<Log>, es: seq<Event>, opens: seq<nat>)
    requires es != [] && |trace| == |es| - 1 && Tiles(parts, trace, DropLast(es), opens, |trace|)
    requires IsExit(Last(es)) && opens == Opens(DropLast(es))
    ensures Tiles(Folded(parts, Last(es).outcome == Revert), trace + [[]], es, Opens(es), |es|)
  {
    if opens == [] {
      FoldBottom(parts, trace, es);
    } else if |opens| == 1 {
      FoldOnBottom(parts, trace, es, opens);
    } else {
      FoldOnFrame(parts, trace, es, opens);
    }
  }

  /** No frame of the run is open: the bottom part, if any, is all there is. */
  lemma FoldBottom(parts: seq<Log>, trace: seq<Log>, es: seq<Event>)
    requires es != [] && |trace| == |es| - 1 && Tiles(parts, trace, DropLast(es), [], |trace|)
    requires IsExit(Last(es)) && Opens(DropLast(es)) == []
    ensures Tiles(Folded(parts, Last(es).outcome == Revert), trace + [[]], es, [], |es|)
  {
    var top := Chronicle(trace, DropLast(es), 0, |trace|);
    var now := if Last(es).outcome == Revert then WithFlags(top, true) else top;
    assert Chronicle(trace + [[]], es, 0, |es|) == now by {
      TileFolds(trace, es, 0);
      assert [] + now == now;
    }
    assert top == [] ==> now == [];
  }

  /** One frame of the run is open: its part folds into the bottom part. */
  lemma FoldOnBottom(parts: seq<Log>, trace: seq<Log>, es: seq<Event>, opens: seq<nat>)
    requires es != [] && |trace| == |es| - 1 && Tiles(parts, trace, DropLast(es), opens, |trace|)
    requires IsExit(Last(es)) && opens == Opens(DropLast(es)) && |opens| == 1
    ensures Tiles(Folded(parts, Last(es).outcome == Revert), trace + [[]], es, [], |es|)
  {
    var reverts, before, p := Last(es).outcome == Revert, DropLast(es), Last(opens);
    var top, below := Chronicle(trace, before, p, |trace|), Chronicle(trace, before, 0, p);
    assert Tiles(DropLast(parts), trace, before, [], p) by {
      assert DropLast(opens) == [];
    }
    assert Chronicle(trace + [[]], es, 0, |es|) == below + if reverts then WithFlags(top, true) else top by {
      TileFolds(trace, es, 0);
    }
    FoldedOnto(parts, reverts, top, below);
  }

  /** Two or more frames of the run are open: the last one's part folds into the one below it. */
  lemma FoldOnFrame(parts: seq<Log>, trace: seq<Log>, es: seq<Event>, opens: seq<nat>)
    requires es != [] && |trace| == |es| - 1 && Tiles(parts, trace, DropLast(es), opens, |trace|)
    requires IsExit(Last(es)) && opens == Opens(DropLast(es)) && |opens| >= 2
    ensures Tiles(Folded(parts, Last(es).outcome == Revert), trace + [[]], es, DropLast(opens), |es|)
  {
    var reverts, before, opens' := Last(es).outcome == Revert, DropLast(es), DropLast(opens);
    var p, q, rest := Last(opens), Last(opens'), DropLast(DropLast(parts));
    var folded := Folded(parts, reverts);
    assert q <= p by {
      OpensIncrease(before);
    }
    assert folded != [] && DropLast(folded) == rest && Last(folded) == Chronicle(trace + [[]], es, q, |es|) by {
      TileFolds(trace, es, q);
      FoldedOnto(parts, reverts, Chronicle(trace, before, p, |trace|), Chronicle(trace, before, q, p));
    }
    assert Tiles(rest, trace + [[]], es, DropLast(opens'), q) by {
      forall i | 0 <= i < q
        ensures !LastUndoes(es, i)
      {
        ExitUndoes(es, i);
      }
      TilesStay(rest, trace, [], es, DropLast(opens'), q);
    }
  }

  lemma FoldedOnto(parts: seq<Log>, isRevert: bool, top: Log, below: Log)
    requires parts != [] && Last(parts) == top
    requires if |parts| == 1 then below == [] else parts[|parts| - 2] == below
    ensures Folded(parts, isRevert) != []
    ensures DropLast(Folded(parts, isRevert)) == if |parts| == 1 then [] else DropLast(DropLast(parts))
    ensures Last(Folded(parts, isRevert)) == below + if isRevert then WithFlags(top, true) else top
  {
    assert [] + top == top && [] + WithFlags(top, true) == WithFlags(top, true);
  }

  lemma UnrevertedEntry(now: World, open: bool, started: bool, e: Event)
    ensures WithFlags(EntryOf(now, open, started, e), false) == EntryOf(now, open, started, e)
  {
  }

  lemma StepTiles(parts: seq<Log>, trace: seq<Log>, entry: Log, es: seq<Event>)
    requires es != [] && |trace| == |es| - 1 && Tiles(parts, trace, DropLast(es), Opens(DropLast(es)), |trace|)
    requires WithFlags(entry, false) == entry && (IsExit(Last(es)) ==> entry == [])
    ensures Tiles(PartsAfter(parts, Last(es), entry), trace + [entry], es, Opens(es), |es|)
  {
    if IsEnter(Last(es)) {
      EnterTiles(parts, trace, entry, es, Opens(DropLast(es)));
    } else if IsExit(Last(es)) {
      FoldTiles(parts, trace, es, Opens(DropLast(es)));
    } else {
      ExtendTiles(parts, trace, entry, es, Opens(DropLast(es)));
    }
  }

  lemma {:induction false} AlwaysTiles(w: World, es: seq<Event>)
    requires w.stack == [] && |w.checkpoints| >= 1 && Runs(w, es)
    ensures Tiles(Parts(Run(w, es).stack), Trace(w, es), es, Opens(es), |es|)
  {
    if es != [] {
      var before, e, now := DropLast(es), Last(es), Run(w, DropLast(es));
      AlwaysTiles(w, before);
      RunShape(w, before);
      StepParts(now, e, |Opens(before)|);
      UnrevertedEntry(now, Opens(before) != [], Started(before), e);
      StepTiles(Parts(now.stack), Trace(w, before), EntryOf(now, Opens(before) != [], Started(before), e), es);
    }
  }

  /** The record of a run: every entered frame, EXT* access and self-destruct and every storage
      access of a recorded frame, once each and in order, flagged reverted exactly when a frame
      that contains the event has reverted. */
  lemma {:induction false} RecordIsChronicle(w: World, es: seq<Event>)
    requires w.stack == [] && |w.checkpoints| >= 1 && Runs(w, es)
    ensures Visible(StackLog(Run(w, es).stack)) == Chronicle(Trace(w, es), es, 0, |es|)
  {
    AlwaysTiles(w, es);
    FlattenParts(Run(w, es).stack);
    TilesFlatten(Parts(Run(w, es).stack), Trace(w, es), es, Opens(es), |es|);
  }

  lemma {:induction false} StorageInVisible(log: Log)
    ensures StorageIn(Visible(log)) == StorageIn(log)
  {
    if log != [] {
      StorageInVisible(DropLast(log));
      StorageInConcat(Visible(DropLast(log)), VisibleEntry(Last(log)));
      if VisibleEntry(Last(log)) != [] {
        assert DropLast([Last(log)]) == [] && StorageIn([]) == [];
        assert StorageIn([Last(log)]) == StorageIn([]) + StorageInEntry(Last(log)) == StorageInEntry(Last(log));
      } else {
        assert StorageIn([]) == [] == StorageInEntry(Last(log));
      }
    }
  }

  /** `getStorageAccesses` at any moment of a run lists the loads and stores of the frames entered
      since recording began, chronologically and with the right flags. */
  lemma {:induction false} StorageAccessesAreChronological(w: World, es: seq<Event>)
    requires w.stack == [] && |w.checkpoints| >= 1 && Runs(w, es)
    ensures StorageLog(Flatten(Run(w, es).stack)) == StorageIn(Chronicle(Trace(w, es), es, 0, |es|))
  {
    RecordIsChronicle(w, es);
    StorageInVisible(StackLog(Run(w, es).stack));
    StorageLogIsInLog(Flatten(Run(w, es).stack));
  }
}
