/** Gas snapshots: one section of code at a time is metered under a group and a name. */
module GasSnapshots {
  import opened Common

  /** An amount of gas: 64 bits, with arithmetic that saturates. */
  type Gas = g: nat | g < U64

  datatype GasRecord = GasRecord(group: string, name: string, gasUsed: Gas, depth: nat)

  datatype Key = Key(group: string, name: string)

  /** `lastSpent` is what the metered frame had spent at the last metered step of all. */
  datatype State = State(
    active: Option<Key>, recording: bool, records: seq<GasRecord>, lastSpent: Gas, snapshots: map<Key, Gas>)

  /** Gas the stopping cheatcode itself uses. */
  const OVERHEAD: Gas := 171

  function Minus(a: Gas, b: Gas): Gas {
    if a < b then 0 else a - b
  }

  function Plus(a: Gas, b: Gas): Gas {
    if a + b < U64 then a + b else U64 - 1
  }

  function KeyOf(record: GasRecord): Key {
    Key(record.group, record.name)
  }

  function Find(records: seq<GasRecord>, key: Key): Option<GasRecord> {
    if records == [] then None
    else if KeyOf(records[0]) == key then Some(records[0])
    else Find(records[1..], key)
  }

  /** The records that share neither group nor name with the key. */
  function Retained(records: seq<GasRecord>, key: Key): seq<GasRecord> {
    if records == [] then []
    else (if records[0].group != key.group && records[0].name != key.name then [records[0]] else []) +
         Retained(records[1..], key)
  }

  function Started(s: State, key: Key, depth: nat): Option<State> {
    if s.active.Some? then None
    else Some(State(Some(key), true, s.records + [GasRecord(key.group, key.name, 0, depth)], s.lastSpent, s.snapshots))
  }

  /** The key that a stop means: the given one if it is complete, else the active one. */
  function StopKey(s: State, group: Option<string>, name: Option<string>): Key
    requires (group.None? || name.None?) ==> s.active.Some?
  {
    if group.Some? && name.Some? then Key(group.value, name.value) else s.active.value
  }

  function Value(record: GasRecord): Gas {
    Minus(record.gasUsed, OVERHEAD)
  }

  function Stopped(s: State, key: Key): Option<State> {
    var record := Find(s.records, key);
    if record.None? then None
    else Some(State(if s.active == Some(key) then None else s.active, false, Retained(s.records, key), s.lastSpent,
                    s.snapshots[key := Value(record.value)]))
  }

  /** One record at a step of the running depth, with what had been spent at the step before. */
  function Charged(record: GasRecord, lastSpent: Gas, depth: nat, spent: Gas): GasRecord {
    if record.depth != depth || lastSpent == 0 then record
    else record.(gasUsed := Plus(record.gasUsed, Minus(spent, lastSpent)))
  }

  datatype Metered = Metered(records: seq<GasRecord>, lastSpent: Gas)

  /** All records, in turn; each of the running depth moves `lastSpent` for the next. */
  function MeteredStep(records: seq<GasRecord>, lastSpent: Gas, depth: nat, spent: Gas): Metered {
    if records == [] then Metered([], lastSpent)
    else
      var before, r := MeteredStep(DropLast(records), lastSpent, depth, spent), Last(records);
      Metered(before.records + [Charged(r, before.lastSpent, depth, spent)],
              if r.depth == depth then spent else before.lastSpent)
  }

  lemma MeteredSnoc(records: seq<GasRecord>, i: nat, lastSpent: Gas, depth: nat, spent: Gas)
    requires i < |records|
    ensures var before := MeteredStep(records[..i], lastSpent, depth, spent);
            MeteredStep(records[..i + 1], lastSpent, depth, spent) ==
            Metered(before.records + [Charged(records[i], before.lastSpent, depth, spent)],
                    if records[i].depth == depth then spent else before.lastSpent)
  {
    assert DropLast(records[..i + 1]) == records[..i];
  }

  ghost predicate HasDepth(records: seq<GasRecord>, depth: nat) {
    exists i :: 0 <= i < |records| && records[i].depth == depth
  }

  /** A step charges one record at most: the first of the running depth gains what was spent since
      the last metered step, and a second one would gain nothing, since the first has moved the mark. */
  lemma {:induction false} FirstOfDepthIsCharged(records: seq<GasRecord>, lastSpent: Gas, depth: nat, spent: Gas)
    ensures var after := MeteredStep(records, lastSpent, depth, spent);
            && |after.records| == |records|
            && after.lastSpent == (if HasDepth(records, depth) then spent else lastSpent)
            && forall i :: 0 <= i < |records| ==>
                 after.records[i] == if HasDepth(records[..i], depth) then records[i]
                                     else Charged(records[i], lastSpent, depth, spent)
  {
    if records != [] {
      var before, k := DropLast(records), |records| - 1;
      FirstOfDepthIsCharged(before, lastSpent, depth, spent);
      HasDepthSnoc(before, records[k], depth);
      assert records == before + [records[k]];
      var after := MeteredStep(records, lastSpent, depth, spent);
      forall i | 0 <= i < |records|
        ensures after.records[i] == if HasDepth(records[..i], depth) then records[i]
                                    else Charged(records[i], lastSpent, depth, spent)
      {
        assert records[..i] == before[..i];
        assert i == k ==> before[..i] == before;
      }
    }
  }

  lemma HasDepthSnoc(records: seq<GasRecord>, r: GasRecord, depth: nat)
    ensures HasDepth(records + [r], depth) <==> HasDepth(records, depth) || r.depth == depth
  {
    var after := records + [r];
    assert after[|records|] == r;
    assert forall i :: 0 <= i < |records| ==> after[i] == records[i];
  }

  class GasMetering {
    var active: Option<Key>
    var recording: bool
    var records: seq<GasRecord>
    var lastSpent: Gas
    var snapshots: map<Key, Gas>

    constructor ()
      ensures View() == Initial()
    {
      active, recording, records, lastSpent, snapshots := None, false, [], 0, map[];
    }

    function View(): State
      reads this
    {
      State(active, recording, records, lastSpent, snapshots)
    }

    /** `running` names the running contract, the default group. */
    method Start(group: Option<string>, name: Option<string>, running: string, depth: nat) returns (ok: bool)
      modifies this
      ensures var key := Key(if group.Some? then group.value else running,
                             if name.Some? then name.value else "default");
              ok == Started(old(View()), key, depth).Some? &&
              View() == if ok then Started(old(View()), key, depth).value else old(View())
    {
      if active.Some? {
        return false;
      }
      var key := Key(if group.Some? then group.value else running, if name.Some? then name.value else "default");
      records := records + [GasRecord(key.group, key.name, 0, depth)];
      active := Some(key);
      recording := true;
      return true;
    }

    method Stop(group: Option<string>, name: Option<string>) returns (value: Option<Gas>)
      requires (group.None? || name.None?) ==> active.Some?
      modifies this
      ensures var key := StopKey(old(View()), group, name);
              && value.Some? == Stopped(old(View()), key).Some?
              && (value.None? ==> View() == old(View()))
              && (value.Some? ==> View() == Stopped(old(View()), key).value && View().snapshots[key] == value.value)
    {
      var key := if group.Some? && name.Some? then Key(group.value, name.value) else active.value;
      var record := Find(records, key);
      if record.None? {
        return None;
      }
      var gas := Value(record.value);
      snapshots := snapshots[key := gas];
      recording := false;
      records := Retained(records, key);
      if active == Some(key) {
        active := None;
      }
      return Some(gas);
    }

    /** Before each opcode while recording; `spent` is the gas the running frame has spent. */
    method Meter(depth: nat, spent: Gas)
      modifies `records, `lastSpent
      ensures View() == Next(old(View()), Spend(depth, spent))
    {
      if recording {
        var metered := [];
        for i := 0 to |records|
          invariant records == old(records)
          invariant Metered(metered, lastSpent) == MeteredStep(records[..i], old(lastSpent), depth, spent)
        {
          MeteredSnoc(records, i, old(lastSpent), depth, spent);
          var charged := MeterRecord(records[i], depth, spent);
          metered := metered + [charged];
        }
        assert records[..|records|] == records;
        records := metered;
      }
    }

    method MeterRecord(record: GasRecord, depth: nat, spent: Gas) returns (charged: GasRecord)
      modifies `lastSpent
      ensures charged == Charged(record, old(lastSpent), depth, spent)
      ensures lastSpent == if record.depth == depth then spent else old(lastSpent)
    {
      charged := record;
      if depth == record.depth {
        if lastSpent != 0 {
          var diff := Minus(spent, lastSpent);
          charged := record.(gasUsed := Plus(record.gasUsed, diff));
        }
        lastSpent := spent;
      }
    }
  }

  // ---- Runs ------------------------------------------------------------------------------

  datatype Event = Begin(key: Key, depth: nat) | End(key: Key) | Spend(depth: nat, spent: Gas)

  function Next(s: State, e: Event): State {
    match e
    case Begin(key, depth) => if Started(s, key, depth).Some? then Started(s, key, depth).value else s
    case End(key) => if Stopped(s, key).Some? then Stopped(s, key).value else s
    case Spend(depth, spent) =>
      if !s.recording then s
      else
        var after := MeteredStep(s.records, s.lastSpent, depth, spent);
        s.(records := after.records, lastSpent := after.lastSpent)
  }

  function Initial(): State {
    State(None, false, [], 0, map[])
  }

  function Steps(s: State, events: seq<Event>): State {
    if events == [] then s else Next(Steps(s, DropLast(events)), Last(events))
  }

  function Run(events: seq<Event>): State {
    Steps(Initial(), events)
  }

  /** One record, the active one, while a snapshot is active and recording; none otherwise. */
  ghost predicate Consistent(s: State) {
    if s.active.None? then s.records == [] && !s.recording
    else |s.records| == 1 && KeyOf(s.records[0]) == s.active.value && s.recording
  }

  lemma {:induction false} AlwaysConsistent(events: seq<Event>)
    ensures Consistent(Run(events))
  {
    if events != [] {
      AlwaysConsistent(DropLast(events));
      var s := Run(DropLast(events));
      match Last(events)
      case Begin(_, _) =>
      case End(key) => OneRecord(s.records, key);
      case Spend(depth, spent) => FirstOfDepthIsCharged(s.records, s.lastSpent, depth, spent);
    }
  }

  lemma OneRecord(records: seq<GasRecord>, key: Key)
    requires |records| <= 1
    ensures Find(records, key).Some? <==> records != [] && KeyOf(records[0]) == key
    ensures Find(records, key).Some? ==> Retained(records, key) == []
  {
    if records != [] {
      assert records[1..] == [];
    }
  }

  /** In every reachable state a stop succeeds exactly on the active snapshot's key; it then clears
      the active snapshot, and the retain, which keeps only records that share neither group nor
      name, has dropped the stopped record and no other. */
  lemma StopEndsActiveOnly(events: seq<Event>, key: Key)
    ensures var s := Run(events);
            && (Stopped(s, key).Some? <==> s.active == Some(key))
            && (Stopped(s, key).Some? ==>
                  var t := Stopped(s, key).value;
                  t.active == None && !t.recording && |t.records| == |s.records| - 1 &&
                  key in t.snapshots && s.records != [] &&
                  t.snapshots[key] == if s.records[0].gasUsed < 171 then 0 else s.records[0].gasUsed - 171)
  {
    AlwaysConsistent(events);
    OneRecord(Run(events).records, key);
  }

  /** The records of other keys, which is what a stop should keep. */
  function Others(records: seq<GasRecord>, key: Key): seq<GasRecord> {
    if records == [] then []
    else (if KeyOf(records[0]) != key then [records[0]] else []) + Others(records[1..], key)
  }

  /** The retain keeps the records of other keys exactly when none of them shares the stopped
      snapshot's group or name. */
  lemma {:induction false} RetainIsExactIff(records: seq<GasRecord>, key: Key)
    ensures |Retained(records, key)| <= |Others(records, key)|
    ensures Retained(records, key) == Others(records, key) <==>
            forall i :: 0 <= i < |records| && KeyOf(records[i]) != key ==>
              records[i].group != key.group && records[i].name != key.name
  {
    if records != [] {
      var r, rest := records[0], records[1..];
      RetainIsExactIff(rest, key);
      assert records == [r] + rest;
      assert forall i :: 0 <= i < |rest| ==> rest[i] == records[i + 1];
      if Retained(records, key) == Others(records, key) {
        assert KeyOf(r) != key ==> r.group != key.group && r.name != key.name;
        if KeyOf(r) != key {
          assert Retained(records, key)[1..] == Retained(rest, key) && Others(records, key)[1..] == Others(rest, key);
        } else {
          assert [] + Retained(rest, key) == Retained(rest, key) && [] + Others(rest, key) == Others(rest, key);
        }
      }
    }
  }

  // ---- What a section is charged ---------------------------------------------------------

  /** What the running frame had spent at each metered step of a depth. */
  function Own(spends: seq<Event>, depth: nat): seq<Gas> {
    if spends == [] then []
    else
      Own(DropLast(spends), depth) +
      if Last(spends).Spend? && Last(spends).depth == depth then [Last(spends).spent] else []
  }

  /** The mark that a section leaves. */
  function MarkAfter(lastSpent: Gas, own: seq<Gas>): Gas {
    if own == [] then lastSpent else Last(own)
  }

  /** Every rise above the mark of the step before, unless that is unset; a fall, where another frame of
      the depth takes over, is charged nothing. */
  function ChargeOf(lastSpent: Gas, own: seq<Gas>): Gas {
    if own == [] then 0
    else
      var charged, mark := ChargeOf(lastSpent, DropLast(own)), MarkAfter(lastSpent, DropLast(own));
      if mark == 0 then charged else Plus(charged, Minus(Last(own), mark))
  }

  /** One frame's spending only grows. */
  ghost predicate Ascends(own: seq<Gas>) {
    forall i, j :: 0 <= i < j < |own| ==> own[i] <= own[j]
  }

  function FirstNonzero(own: seq<Gas>): Gas {
    if own == [] then 0
    else if FirstNonzero(DropLast(own)) != 0 then FirstNonzero(DropLast(own)) else Last(own)
  }

  lemma {:induction false} FirstNonzeroIs(own: seq<Gas>)
    requires own != [] && Ascends(own)
    ensures FirstNonzero(own) <= Last(own)
    ensures own[0] != 0 ==> FirstNonzero(own) == own[0]
    ensures FirstNonzero(own) == 0 <==> Last(own) == 0
  {
    if |own| > 1 {
      FirstNonzeroIs(DropLast(own));
    }
  }

  /** Where the charge of a section counts from: the mark left before it if that is set and below
      the section's first step, else the first step with gas spent. */
  function CountedFrom(lastSpent: Gas, own: seq<Gas>): Gas
    requires own != []
  {
    if 0 < lastSpent < own[0] then lastSpent else FirstNonzero(own)
  }

  /** In one frame the rises add up to a single difference. */
  lemma {:induction false} ChargeInOneFrame(lastSpent: Gas, own: seq<Gas>)
    requires own != [] && Ascends(own)
    ensures ChargeOf(lastSpent, own) == Minus(Last(own), CountedFrom(lastSpent, own))
  {
    var before, spent := DropLast(own), Last(own);
    assert own == before + [spent];
    if before == [] {
      ChargeOfOne(lastSpent, spent);
    } else {
      assert Ascends(before) && Last(before) <= spent && before[0] == own[0] <= Last(before) by {
        AscendsPrefix(own);
      }
      ChargeInOneFrame(lastSpent, before);
      ChargeRises(lastSpent, before, spent);
    }
  }

  lemma ChargeOfOne(lastSpent: Gas, spent: Gas)
    ensures ChargeOf(lastSpent, [spent]) == Minus(spent, CountedFrom(lastSpent, [spent]))
  {
    assert DropLast([spent]) == [] && ChargeOf(lastSpent, []) == 0 && FirstNonzero([]) == 0;
    assert FirstNonzero([spent]) == spent;
  }

  lemma ChargeRises(lastSpent: Gas, before: seq<Gas>, spent: Gas)
    requires before != [] && Ascends(before) && before[0] <= Last(before) <= spent
    requires ChargeOf(lastSpent, before) == Minus(Last(before), CountedFrom(lastSpent, before))
    ensures ChargeOf(lastSpent, before + [spent]) == Minus(spent, CountedFrom(lastSpent, before + [spent]))
  {
    ChargeSnoc(lastSpent, before, spent);
    FirstNonzeroSnoc(before, spent);
    FirstNonzeroIs(before);
    assert (before + [spent])[0] == before[0];
    RiseAdds(lastSpent, before[0], FirstNonzero(before), Last(before), spent);
  }

  lemma ChargeSnoc(lastSpent: Gas, own: seq<Gas>, spent: Gas)
    ensures var charged, mark := ChargeOf(lastSpent, own), MarkAfter(lastSpent, own);
            ChargeOf(lastSpent, own + [spent]) == if mark == 0 then charged else Plus(charged, Minus(spent, mark))
  {
    assert DropLast(own + [spent]) == own;
  }

  lemma AscendsPrefix(own: seq<Gas>)
    requires |own| > 1 && Ascends(own)
    ensures var before := DropLast(own);
            Ascends(before) && Last(before) <= Last(own) && before[0] == own[0] <= Last(before)
  {
  }

  lemma RiseAdds(lastSpent: Gas, first: Gas, nonzero: Gas, last: Gas, spent: Gas)
    requires first <= last <= spent && nonzero <= last && (nonzero == 0 <==> last == 0)
    requires first != 0 ==> nonzero == first
    ensures var from := if 0 < lastSpent < first then lastSpent else nonzero;
            var from' := if 0 < lastSpent < first then lastSpent else if nonzero != 0 then nonzero else spent;
            Minus(spent, from') ==
            if last == 0 then Minus(last, from) else Plus(Minus(last, from), Minus(spent, last))
  {
  }

  lemma FirstNonzeroSnoc(own: seq<Gas>, spent: Gas)
    ensures FirstNonzero(own + [spent]) == if FirstNonzero(own) != 0 then FirstNonzero(own) else spent
  {
    assert DropLast(own + [spent]) == own;
  }

  ghost predicate IsSection(spends: seq<Event>) {
    forall e :: e in spends ==> e.Spend?
  }

  /** All that a section meters at its depth is one frame's. */
  ghost predicate InOneFrame(spends: seq<Event>, depth: nat) {
    Own(spends, depth) != [] && Ascends(Own(spends, depth))
  }

  /** An open section of the given key, which has metered `own` at its depth so far. */
  function Open(s: State, key: Key, depth: nat, own: seq<Gas>): State {
    State(Some(key), true, [GasRecord(key.group, key.name, ChargeOf(s.lastSpent, own), depth)],
          MarkAfter(s.lastSpent, own), s.snapshots)
  }

  /** However the steps of a section interleave with other depths, and whichever frames of its own
      depth it meters, its record is charged the rises between the steps of that depth. */
  lemma {:induction false} SectionIsCharged(s: State, key: Key, depth: nat, spends: seq<Event>)
    requires Consistent(s) && s.active.None? && IsSection(spends)
    ensures Steps(Next(s, Begin(key, depth)), spends) == Open(s, key, depth, Own(spends, depth))
  {
    if spends != [] {
      var before, e, own := DropLast(spends), Last(spends), Own(DropLast(spends), depth);
      assert IsSection(before) && e.Spend? by {
        assert forall x :: x in before ==> x in spends;
        assert e in spends;
      }
      SectionIsCharged(s, key, depth, before);
      assert Own(spends, depth) == if e.depth == depth then own + [e.spent] else own by {
        assert own + [] == own;
      }
      SectionStep(s, key, depth, own, e);
    }
  }

  lemma SectionStep(s: State, key: Key, depth: nat, own: seq<Gas>, e: Event)
    requires e.Spend?
    ensures Next(Open(s, key, depth, own), e) ==
            Open(s, key, depth, if e.depth == depth then own + [e.spent] else own)
  {
    var t := Open(s, key, depth, own);
    OneRecordStep(t.records[0], t.lastSpent, e.depth, e.spent);
    assert DropLast(own + [e.spent]) == own;
  }

  lemma OneRecordStep(record: GasRecord, lastSpent: Gas, depth: nat, spent: Gas)
    ensures MeteredStep([record], lastSpent, depth, spent) ==
            Metered([Charged(record, lastSpent, depth, spent)], if record.depth == depth then spent else lastSpent)
  {
    assert DropLast([record]) == [];
  }

  /** What stopping a section stores is what its frame spent between the section's first and last
      own steps, less the overhead, if and only if nothing metered before the section counts in: the
      mark is unset or no less than the section's first step (which has gas spent, or none has). */
  lemma {:induction false} SectionIsExactIff(s: State, key: Key, depth: nat, spends: seq<Event>)
    requires Consistent(s) && s.active.None? && IsSection(spends) && InOneFrame(spends, depth)
    ensures var own, t := Own(spends, depth), Next(Steps(Next(s, Begin(key, depth)), spends), End(key));
            && Consistent(t) && t.active == None && t.lastSpent == Last(own)
            && key in t.snapshots && t.snapshots[key] == Minus(ChargeOf(s.lastSpent, own), OVERHEAD)
            && (ChargeOf(s.lastSpent, own) == Last(own) - own[0] <==>
                (s.lastSpent == 0 || s.lastSpent >= own[0]) && (own[0] != 0 || Last(own) == 0))
  {
    var own := Own(spends, depth);
    SectionIsCharged(s, key, depth, spends);
    OneRecord([GasRecord(key.group, key.name, ChargeOf(s.lastSpent, own), depth)], key);
    ChargeIsExactIff(s.lastSpent, own);
  }

  lemma ChargeIsExactIff(lastSpent: Gas, own: seq<Gas>)
    requires own != [] && Ascends(own)
    ensures ChargeOf(lastSpent, own) == Last(own) - own[0] <==>
            (lastSpent == 0 || lastSpent >= own[0]) && (own[0] != 0 || Last(own) == 0)
  {
    ChargeInOneFrame(lastSpent, own);
    FirstNonzeroIs(own);
    assert own[0] <= Last(own);
  }

  /** The mark outlives a section: the next section of the same frame, under whatever key, is also
      charged for all that the frame spent between the two. */
  lemma NextSectionCountsTheGap(s: State, key: Key, other: Key, depth: nat, first: seq<Event>, second: seq<Event>)
    requires Consistent(s) && s.active.None?
    requires IsSection(first) && InOneFrame(first, depth) && IsSection(second) && InOneFrame(second, depth)
    requires 0 < Last(Own(first, depth)) < Own(second, depth)[0]
    ensures var one := Next(Steps(Next(s, Begin(key, depth)), first), End(key));
            var two := Next(Steps(Next(one, Begin(other, depth)), second), End(other));
            && other in two.snapshots
            && two.snapshots[other] == Minus(Last(Own(second, depth)) - Last(Own(first, depth)), OVERHEAD)
  {
    var one := Next(Steps(Next(s, Begin(key, depth)), first), End(key));
    assert Consistent(one) && one.active == None && one.lastSpent == Last(Own(first, depth)) by {
      SectionIsExactIff(s, key, depth, first);
    }
    SectionFromMark(one, other, depth, second);
  }

  lemma SectionFromMark(s: State, key: Key, depth: nat, spends: seq<Event>)
    requires Consistent(s) && s.active.None? && IsSection(spends) && InOneFrame(spends, depth)
    requires 0 < s.lastSpent < Own(spends, depth)[0]
    ensures var t := Next(Steps(Next(s, Begin(key, depth)), spends), End(key));
            key in t.snapshots && Last(Own(spends, depth)) >= s.lastSpent &&
            t.snapshots[key] == Minus(Last(Own(spends, depth)) - s.lastSpent, OVERHEAD)
  {
    ChargeFromMark(s.lastSpent, Own(spends, depth));
    SectionIsExactIff(s, key, depth, spends);
  }

  lemma ChargeFromMark(lastSpent: Gas, own: seq<Gas>)
    requires own != [] && Ascends(own) && 0 < lastSpent < own[0]
    ensures own[0] <= Last(own) && ChargeOf(lastSpent, own) == Last(own) - lastSpent
  {
    assert own[0] <= Last(own);
    ChargeInOneFrame(lastSpent, own);
  }

  // ---- What the operations mean ----------------------------------------------------------

  /** A start is refused exactly while a snapshot is active; else it opens one empty record. */
  lemma StartIff(s: State, key: Key, depth: nat)
    ensures Started(s, key, depth) == None <==> s.active.Some?
    ensures s.active.None? ==>
      var t := Started(s, key, depth).value;
      && t.active == Some(key) && t.recording && |t.records| == |s.records| + 1 && DropLast(t.records) == s.records
      && Last(t.records).group == key.group && Last(t.records).name == key.name
      && Last(t.records).gasUsed == 0 && Last(t.records).depth == depth
      && t.lastSpent == s.lastSpent && t.snapshots == s.snapshots
  {
  }

  /** A stop means the snapshot it names in full, and the active one otherwise: a group alone or a name
      alone is ignored. */
  lemma StopMeans(s: State, group: Option<string>, name: Option<string>)
    requires (group.None? || name.None?) ==> s.active.Some?
    ensures var key := StopKey(s, group, name);
            && (group.Some? && name.Some? ==> key.group == group.value && key.name == name.value)
            && (group.None? || name.None? ==> Some(key) == s.active)
  {
  }

  /** A charge is the rise since the mark, up to the largest number of 64 bits. */
  lemma ChargedIs(record: GasRecord, lastSpent: Gas, depth: nat, spent: Gas)
    ensures var charged := Charged(record, lastSpent, depth, spent);
            && charged == record.(gasUsed := charged.gasUsed)
            && charged.gasUsed as int == record.gasUsed as int +
               if record.depth != depth || lastSpent == 0 || spent <= lastSpent then 0
               else if record.gasUsed + (spent - lastSpent) <= 0xFFFF_FFFF_FFFF_FFFF then spent - lastSpent
               else 0xFFFF_FFFF_FFFF_FFFF - record.gasUsed
  {
  }

  /** A stop of any state: the first record of the key is stored, the snapshot ends if it is the active
      one, and every record that shares the group or the name is gone. */
  lemma {:induction false} StopIs(s: State, key: Key)
    ensures Stopped(s, key) == None <==> forall i :: 0 <= i < |s.records| ==> KeyOf(s.records[i]) != key
    ensures Stopped(s, key).Some? ==>
      var t := Stopped(s, key).value;
      && !t.recording && t.lastSpent == s.lastSpent
      && (t.active == if s.active == Some(key) then None else s.active)
      && (forall r :: r in t.records <==> r in s.records && r.group != key.group && r.name != key.name)
  {
    FindIff(s.records, key);
    RetainedIs(s.records, key);
  }

  lemma {:induction false} FindIff(records: seq<GasRecord>, key: Key)
    ensures Find(records, key) == None <==> forall i :: 0 <= i < |records| ==> KeyOf(records[i]) != key
  {
    if records != [] {
      FindIff(records[1..], key);
      assert forall i :: 0 < i < |records| ==> records[i] == records[1..][i - 1];
    }
  }

  lemma {:induction false} RetainedIs(records: seq<GasRecord>, key: Key)
    ensures forall r :: r in Retained(records, key) <==> r in records && r.group != key.group && r.name != key.name
  {
    if records != [] {
      RetainedIs(records[1..], key);
      assert records == [records[0]] + records[1..];
    }
  }
}
