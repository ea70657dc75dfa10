/** The generator of forge-std's `Vm.sol` inserts a header in front of each group of cheatcodes,
    into the very list it is enumerating. */
module GroupHeaders {
  import opened Common

  datatype Cheatcode = Cheatcode(
    group: string, status: string, safety: string, id: string, description: string, declaration: string)

  // ---- The order the list is sorted by ---------------------------------------------------

  /** Python's `<` on strings. */
  predicate StringLess(a: string, b: string) {
    b != "" && (a == "" || a[0] < b[0] || (a[0] == b[0] && StringLess(a[1..], b[1..])))
  }

  /** At the first difference the smaller character, or the shorter string, comes first. */
  lemma {:induction false} StringLessIff(a: string, b: string)
    ensures StringLess(a, b) <==> exists k: nat :: DiffersAt(a, b, k)
  {
    DiffersLater(a, b);
    if a != "" && b != "" && a[0] == b[0] {
      StringLessIff(a[1..], b[1..]);
      assert a == [a[0]] + a[1..] && b == [b[0]] + b[1..];
      if k: nat :| DiffersAt(a[1..], b[1..], k) {
        assert a[..k + 1] == [a[0]] + a[1..][..k] && b[..k + 1] == [b[0]] + b[1..][..k];
        assert DiffersAt(a, b, k + 1);
      }
      if k: nat :| DiffersAt(a, b, k) {
        assert k > 0 && a[1..][..k - 1] == a[..k][1..] && b[1..][..k - 1] == b[..k][1..];
        assert DiffersAt(a[1..], b[1..], k - 1);
      }
    } else if StringLess(a, b) {
      assert DiffersAt(a, b, 0);
    }
  }

  lemma DiffersLater(a: string, b: string)
    ensures forall k: nat :: DiffersAt(a, b, k) && k > 0 ==> a != "" && b != "" && a[0] == b[0]
  {
    forall k: nat | DiffersAt(a, b, k) && k > 0
      ensures a != "" && b != "" && a[0] == b[0]
    {
      assert a[..k][0] == a[0] && b[..k][0] == b[0];
    }
  }

  ghost predicate DiffersAt(a: string, b: string, k: nat) {
    k <= |a| && k < |b| && a[..k] == b[..k] && (k == |a| || a[k] < b[k])
  }

  lemma {:induction false} StringLessTotal(a: string, b: string)
    ensures (StringLess(a, b) && !StringLess(b, a) && a != b)
         || (StringLess(b, a) && !StringLess(a, b) && a != b)
         || (a == b && !StringLess(a, b))
  {
    if a != "" && b != "" && a[0] == b[0] {
      StringLessTotal(a[1..], b[1..]);
      assert a == [a[0]] + a[1..] && b == [b[0]] + b[1..];
    }
  }

  lemma {:induction false} StringLessTransitive(a: string, b: string, c: string)
    requires StringLess(a, b) && StringLess(b, c)
    ensures StringLess(a, c)
  {
    if a != "" && a[0] == b[0] == c[0] {
      StringLessTransitive(a[1..], b[1..], c[1..]);
    }
  }

  function CompareStrings(a: string, b: string, next: int): int {
    if a != b then (if StringLess(a, b) then -1 else 1) else next
  }

  function CmpCheatcode(a: Cheatcode, b: Cheatcode): int {
    CompareStrings(a.group, b.group,
      CompareStrings(a.status, b.status,
        CompareStrings(a.safety, b.safety,
          CompareStrings(a.id, b.id, 0))))
  }

  /** The comparison is a total order on the four keys: antisymmetric, transitive, and zero only on
      equal keys. */
  lemma CmpAntisymmetric(a: Cheatcode, b: Cheatcode)
    ensures CmpCheatcode(a, b) == -CmpCheatcode(b, a)
    ensures CmpCheatcode(a, b) == 0 <==>
            a.group == b.group && a.status == b.status && a.safety == b.safety && a.id == b.id
  {
    StringLessTotal(a.group, b.group);
    StringLessTotal(a.status, b.status);
    StringLessTotal(a.safety, b.safety);
    StringLessTotal(a.id, b.id);
  }

  /** Groups decide first, then status, then safety, then the identifier. */
  lemma CmpIsLexicographic(a: Cheatcode, b: Cheatcode)
    ensures CmpCheatcode(a, b) < 0 <==>
            || StringLess(a.group, b.group)
            || (a.group == b.group && StringLess(a.status, b.status))
            || (a.group == b.group && a.status == b.status && StringLess(a.safety, b.safety))
            || (a.group == b.group && a.status == b.status && a.safety == b.safety && StringLess(a.id, b.id))
    ensures -1 <= CmpCheatcode(a, b) <= 1
  {
    StringLessTotal(a.group, b.group);
    StringLessTotal(a.status, b.status);
    StringLessTotal(a.safety, b.safety);
    StringLessTotal(a.id, b.id);
  }

  predicate CompareLevels(ab: int, bc: int, ac: int) {
    (ab <= 0 && bc <= 0 ==> ac <= 0) && ((ab < 0 && bc <= 0) || (ab <= 0 && bc < 0) ==> ac < 0)
  }

  lemma CompareStringsTransitive(a: string, b: string, c: string, ab: int, bc: int, ac: int)
    requires CompareLevels(ab, bc, ac)
    ensures CompareLevels(CompareStrings(a, b, ab), CompareStrings(b, c, bc), CompareStrings(a, c, ac))
  {
    StringLessTotal(a, b);
    StringLessTotal(b, c);
    StringLessTotal(a, c);
    if StringLess(a, b) && StringLess(b, c) {
      StringLessTransitive(a, b, c);
    }
  }

  lemma CmpTransitive(a: Cheatcode, b: Cheatcode, c: Cheatcode)
    ensures CompareLevels(CmpCheatcode(a, b), CmpCheatcode(b, c), CmpCheatcode(a, c))
  {
    var ab, bc, ac := CompareStrings(a.id, b.id, 0), CompareStrings(b.id, c.id, 0), CompareStrings(a.id, c.id, 0);
    CompareStringsTransitive(a.id, b.id, c.id, 0, 0, 0);
    CompareStringsTransitive(a.safety, b.safety, c.safety, ab, bc, ac);
    var ab', bc', ac' :=
      CompareStrings(a.safety, b.safety, ab), CompareStrings(b.safety, c.safety, bc),
      CompareStrings(a.safety, c.safety, ac);
    CompareStringsTransitive(a.status, b.status, c.status, ab', bc', ac');
    CompareStringsTransitive(a.group, b.group, c.group, CompareStrings(a.status, b.status, ab'),
                             CompareStrings(b.status, c.status, bc'), CompareStrings(a.status, c.status, ac'));
  }

  // ---- Inserting headers -----------------------------------------------------------------

  function Upper(c: char): char {
    if 'a' <= c <= 'z' then 'A' + (c - 'a') else c
  }

  function GroupTitle(group: string): string
    requires group != ""
  {
    if group == "evm" then "EVM" else if group == "json" then "JSON" else [Upper(group[0])] + group[1..]
  }

  function HeaderOf(cheat: Cheatcode): Cheatcode
    requires cheat.group != ""
  {
    cheat.(description := "", declaration := "// ======== " + GroupTitle(cheat.group) + " ========")
  }

  /** A header is the member it stands for without a description and with the group's title for a
      declaration. The title is the group with its first letter in upper case, but for two groups. */
  lemma HeaderIs(cheat: Cheatcode)
    requires cheat.group != ""
    ensures var h, title := HeaderOf(cheat), GroupTitle(cheat.group);
            && h.group == cheat.group && h.status == cheat.status && h.safety == cheat.safety && h.id == cheat.id
            && h.description == "" && h.declaration == "// ======== " + title + " ========"
            && (cheat.group == "evm" ==> title == "EVM") && (cheat.group == "json" ==> title == "JSON")
            && (cheat.group != "evm" && cheat.group != "json" ==>
                  && |title| == |cheat.group| && title[1..] == cheat.group[1..]
                  && title[0] as int == cheat.group[0] as int - if 'a' <= cheat.group[0] <= 'z' then 32 else 0)
  {
  }

  predicate Named(cheats: seq<Cheatcode>) {
    forall c :: c in cheats ==> c.group != ""
  }

  function Front(c: Cheatcode, seen: set<string>): seq<Cheatcode>
    requires c.group != ""
  {
    if c.group in seen then [c] else [HeaderOf(c), c]
  }

  /** The list with a header in front of the first member of each group not yet seen. */
  function WithHeaders(cheats: seq<Cheatcode>, seen: set<string>): seq<Cheatcode>
    requires Named(cheats)
  {
    if cheats == [] then []
    else Front(cheats[0], seen) + WithHeaders(cheats[1..], seen + {cheats[0].group})
  }

  ghost function Groups(cheats: seq<Cheatcode>): set<string> {
    set c | c in cheats :: c.group
  }

  class CheatList {
    var cheats: seq<Cheatcode>

    constructor (cheats: seq<Cheatcode>)
      ensures this.cheats == cheats
    {
      this.cheats := cheats;
    }

    /** `for i, cheat in enumerate(cheats)`, with an insertion at i that shifts the cheat just read
        to i + 1, where the enumeration meets it again and finds its group seen. */
    method PrefixWithGroupHeaders()
      requires Named(cheats)
      modifies this
      ensures cheats == WithHeaders(old(cheats), {})
    {
      var seen: set<string> := {};
      var i := 0;
      assert cheats[0..] == cheats && [] + WithHeaders(cheats, {}) == WithHeaders(cheats, {});
      while i < |cheats|
        invariant i <= |cheats| && Named(cheats)
        invariant WithHeaders(old(cheats), {}) == cheats[..i] + WithHeaders(cheats[i..], seen)
        decreases Groups(cheats) - seen, |cheats| - i
      {
        var cheat := cheats[i];
        if cheat.group in seen {
          Passed(cheats, i, seen);
        } else {
          Inserted(cheats, i, HeaderOf(cheat));
          Headed(cheats, i, seen);
          seen := seen + {cheat.group};
          var c := HeaderOf(cheat);
          cheats := cheats[..i] + [c] + cheats[i..];
        }
        i := i + 1;
      }
      assert cheats[..|cheats|] == cheats;
    }
  }

  /** The enumeration goes past a member whose group has been seen. */
  lemma Passed(cheats: seq<Cheatcode>, i: nat, seen: set<string>)
    requires Named(cheats) && i < |cheats| && cheats[i].group in seen
    ensures cheats[..i] + WithHeaders(cheats[i..], seen) == cheats[..i + 1] + WithHeaders(cheats[i + 1..], seen)
  {
    var c, rest := cheats[i], cheats[i..];
    assert rest[0] == c && rest[1..] == cheats[i + 1..] && cheats[..i + 1] == cheats[..i] + [c];
    assert seen + {c.group} == seen;
    Associative(cheats[..i], [c], WithHeaders(cheats[i + 1..], seen));
  }

  /** In front of an unseen group the header goes in, and the member is met again with it seen. */
  lemma Headed(cheats: seq<Cheatcode>, i: nat, seen: set<string>)
    requires Named(cheats) && i < |cheats| && cheats[i].group !in seen && cheats[i].group != ""
    ensures cheats[..i] + WithHeaders(cheats[i..], seen) ==
            (cheats[..i] + [HeaderOf(cheats[i])]) + WithHeaders(cheats[i..], seen + {cheats[i].group})
  {
    var c, rest, seen' := cheats[i], cheats[i..], seen + {cheats[i].group};
    var tail := WithHeaders(rest[1..], seen');
    assert rest[0] == c && seen' + {c.group} == seen';
    assert [HeaderOf(c), c] + tail == [HeaderOf(c)] + ([c] + tail);
    Associative(cheats[..i], [HeaderOf(c)], [c] + tail);
  }

  lemma Inserted(before: seq<Cheatcode>, i: nat, c: Cheatcode)
    requires i < |before| && c.group == before[i].group
    ensures var after := before[..i] + [c] + before[i..];
            && after[..i + 1] == before[..i] + [c] && after[i + 1..] == before[i..]
            && Groups(after) == Groups(before) && before[i].group in Groups(before)
            && (Named(before) ==> Named(after))
  {
    var after := before[..i] + [c] + before[i..];
    assert before == before[..i] + before[i..];
    assert forall x :: x in after <==> x in before || x == c;
    assert before[i] in before;
  }

  // ---- What the headers are --------------------------------------------------------------

  predicate IsHeader(c: Cheatcode) {
    c.group != "" && c == HeaderOf(c)
  }

  /** No cheatcode of the list passes for a header. */
  ghost predicate Plain(cheats: seq<Cheatcode>) {
    forall c :: c in cheats ==> c.group != "" && !IsHeader(c)
  }

  function Erased(cheats: seq<Cheatcode>): seq<Cheatcode> {
    if cheats == [] then []
    else (if IsHeader(cheats[0]) then [] else [cheats[0]]) + Erased(cheats[1..])
  }

  lemma ErasedCons(c: Cheatcode, rest: seq<Cheatcode>)
    ensures Erased([c] + rest) == (if IsHeader(c) then [] else [c]) + Erased(rest)
  {
    assert ([c] + rest)[1..] == rest;
  }

  /** Nothing is lost, moved or repeated: without the headers the list is the original. */
  lemma {:induction false} ErasingHeadersRestores(cheats: seq<Cheatcode>, seen: set<string>)
    requires Plain(cheats)
    ensures Erased(WithHeaders(cheats, seen)) == cheats
  {
    if cheats != [] {
      var c, tail := cheats[0], WithHeaders(cheats[1..], seen + {cheats[0].group});
      ErasingHeadersRestores(cheats[1..], seen + {c.group});
      assert cheats == [c] + cheats[1..] && c in cheats;
      ErasedCons(c, tail);
      ErasedCons(HeaderOf(c), [c] + tail);
      assert [HeaderOf(c), c] + tail == [HeaderOf(c)] + ([c] + tail);
      assert [] + Erased([c] + tail) == Erased([c] + tail);
    }
  }

  /** A header stands right in front of a member of its group, and nothing of the group precedes it. */
  ghost predicate HeaderPlaced(list: seq<Cheatcode>, seen: set<string>, i: nat)
    requires i < |list|
  {
    IsHeader(list[i]) ==>
      && i + 1 < |list| && list[i + 1].group == list[i].group
      && !IsHeader(list[i + 1]) && list[i] == HeaderOf(list[i + 1])
      && list[i].group !in seen
      && (forall j :: 0 <= j < i ==> list[j].group != list[i].group)
  }

  /** Whatever belongs to a group not seen before stands at or after a header of its group. */
  ghost predicate UnderHeader(list: seq<Cheatcode>, seen: set<string>, k: nat)
    requires k < |list|
  {
    list[k].group !in seen ==> exists i :: 0 <= i <= k && IsHeader(list[i]) && list[i].group == list[k].group
  }

  lemma {:induction false} HeadersArePlaced(cheats: seq<Cheatcode>, seen: set<string>, i: nat)
    requires Plain(cheats) && i < |WithHeaders(cheats, seen)|
    ensures HeaderPlaced(WithHeaders(cheats, seen), seen, i)
    ensures UnderHeader(WithHeaders(cheats, seen), seen, i)
  {
    var c, tail := cheats[0], WithHeaders(cheats[1..], seen + {cheats[0].group});
    assert c in cheats;
    var lead := |Front(c, seen)|;
    if i < lead {
      PlacedInFront(c, tail, seen, i);
    } else {
      HeadersArePlaced(cheats[1..], seen + {c.group}, i - lead);
      PlacedAfter(c, tail, seen, i - lead);
    }
  }

  lemma PlacedInFront(c: Cheatcode, tail: seq<Cheatcode>, seen: set<string>, i: nat)
    requires c.group != "" && !IsHeader(c) && i < |Front(c, seen)|
    ensures HeaderPlaced(Front(c, seen) + tail, seen, i)
    ensures UnderHeader(Front(c, seen) + tail, seen, i)
  {
    var list := Front(c, seen) + tail;
    assert list[i] == Front(c, seen)[i] && list[0] == Front(c, seen)[0];
    assert |Front(c, seen)| == 2 ==> list[1] == c && IsHeader(list[0]);
  }

  /** Placement carries over to the list with the first member, and its header, in front. */
  lemma PlacedAfter(c: Cheatcode, tail: seq<Cheatcode>, seen: set<string>, i: nat)
    requires c.group != "" && i < |tail|
    requires HeaderPlaced(tail, seen + {c.group}, i) && UnderHeader(tail, seen + {c.group}, i)
    ensures HeaderPlaced(Front(c, seen) + tail, seen, |Front(c, seen)| + i)
    ensures UnderHeader(Front(c, seen) + tail, seen, |Front(c, seen)| + i)
  {
    var front, g := Front(c, seen), tail[i].group;
    var list, n := front + tail, |front|;
    assert list[n + i] == tail[i];
    if IsHeader(tail[i]) {
      forall j | 0 <= j < n + i
        ensures list[j].group != g
      {
        if j < n {
          assert list[j] == front[j];
        } else {
          assert list[j] == tail[j - n];
        }
      }
      assert list[n + i + 1] == tail[i + 1];
    }
    if g !in seen {
      if g == c.group {
        assert list[0] == front[0] && IsHeader(list[0]);
      } else {
        var k :| 0 <= k <= i && IsHeader(tail[k]) && tail[k].group == g;
        assert list[n + k] == tail[k];
      }
    }
  }

  /** Each group of the list gets exactly one header. */
  lemma OneHeaderPerGroup(cheats: seq<Cheatcode>, c: Cheatcode)
    requires Plain(cheats) && c in WithHeaders(cheats, {})
    ensures var list := WithHeaders(cheats, {});
            exists i :: 0 <= i < |list| && IsHeader(list[i]) && list[i].group == c.group &&
              (forall j :: 0 <= j < |list| && IsHeader(list[j]) && list[j].group == c.group ==> j == i)
  {
    var list := WithHeaders(cheats, {});
    var k :| 0 <= k < |list| && list[k] == c;
    HeadersArePlaced(cheats, {}, k);
    var i :| 0 <= i <= k && IsHeader(list[i]) && list[i].group == c.group;
    HeadersArePlaced(cheats, {}, i);
    forall j | 0 <= j < |list| && IsHeader(list[j]) && list[j].group == c.group
      ensures j == i
    {
      HeadersArePlaced(cheats, {}, j);
    }
  }

  // ---- Sorted input ----------------------------------------------------------------------

  ghost predicate SortedByCmp(cheats: seq<Cheatcode>) {
    forall i, j :: 0 <= i < j < |cheats| ==> CmpCheatcode(cheats[i], cheats[j]) <= 0
  }

  ghost predicate GroupsAscend(cheats: seq<Cheatcode>) {
    forall i, j :: 0 <= i < j < |cheats| ==> !StringLess(cheats[j].group, cheats[i].group)
  }

  lemma SortedAscends(cheats: seq<Cheatcode>)
    requires SortedByCmp(cheats)
    ensures GroupsAscend(cheats)
  {
    forall i, j | 0 <= i < j < |cheats|
      ensures !StringLess(cheats[j].group, cheats[i].group)
    {
      assert CmpCheatcode(cheats[i], cheats[j]) <= 0;
      StringLessTotal(cheats[i].group, cheats[j].group);
    }
  }

  /** The list begins with the first member, maybe behind its header, and goes on with the rest. */
  lemma HeadersFront(cheats: seq<Cheatcode>, seen: set<string>, k: nat)
    requires Named(cheats) && k < |WithHeaders(cheats, seen)|
    ensures cheats[0].group != ""
    ensures var c, tail := cheats[0], WithHeaders(cheats[1..], seen + {cheats[0].group});
            var lead := |Front(c, seen)|;
            if k < lead then WithHeaders(cheats, seen)[k].group == c.group
            else k - lead < |tail| && WithHeaders(cheats, seen)[k] == tail[k - lead]
  {
    var c, tail := cheats[0], WithHeaders(cheats[1..], seen + {cheats[0].group});
    assert c in cheats;
    ConcatAt(Front(c, seen), tail, k);
  }

  /** The list with headers has the groups of the original and nothing else. */
  lemma {:induction false} SameGroups(cheats: seq<Cheatcode>, seen: set<string>, k: nat)
    requires Named(cheats) && k < |WithHeaders(cheats, seen)|
    ensures exists c :: c in cheats && c.group == WithHeaders(cheats, seen)[k].group
  {
    var c, rest := cheats[0], cheats[1..];
    assert c in cheats;
    HeadersFront(cheats, seen, k);
    var lead := |Front(c, seen)|;
    if k >= lead {
      SameGroups(rest, seen + {c.group}, k - lead);
      var d :| d in rest && d.group == WithHeaders(rest, seen + {c.group})[k - lead].group;
      assert d in cheats;
    }
  }

  lemma {:induction false} HeadersKeepAscending(cheats: seq<Cheatcode>, seen: set<string>, i: nat, j: nat)
    requires Named(cheats) && GroupsAscend(cheats) && i < j < |WithHeaders(cheats, seen)|
    ensures !StringLess(WithHeaders(cheats, seen)[j].group, WithHeaders(cheats, seen)[i].group)
  {
    var g, rest := cheats[0].group, cheats[1..];
    HeadersFront(cheats, seen, i);
    HeadersFront(cheats, seen, j);
    var lead := |Front(cheats[0], seen)|;
    if i >= lead {
      assert GroupsAscend(rest);
      HeadersKeepAscending(rest, seen + {g}, i - lead, j - lead);
    } else if j >= lead {
      SameGroups(rest, seen + {g}, j - lead);
      var d :| d in rest && d.group == WithHeaders(rest, seen + {g})[j - lead].group;
      var k :| 0 <= k < |rest| && rest[k] == d;
      assert cheats[k + 1] == d;
    } else {
      StringLessTotal(g, g);
    }
  }

  /** On sorted input the sections are contiguous: between two entries of a group stand only
      entries of that group, so each header opens the one section of its group. */
  lemma SectionsAreContiguous(cheats: seq<Cheatcode>, i: nat, k: nat, j: nat)
    requires Plain(cheats) && SortedByCmp(cheats) && i < k < j < |WithHeaders(cheats, {})|
    requires WithHeaders(cheats, {})[i].group == WithHeaders(cheats, {})[j].group
    ensures WithHeaders(cheats, {})[k].group == WithHeaders(cheats, {})[i].group
  {
    var list := WithHeaders(cheats, {});
    SortedAscends(cheats);
    HeadersKeepAscending(cheats, {}, i, k);
    HeadersKeepAscending(cheats, {}, k, j);
    StringLessTotal(list[i].group, list[k].group);
  }
}
