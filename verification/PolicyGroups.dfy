/** The weka_security_policy_group option: '<group>:<rw|ro>:<cidr,...>' entries separated by ';'. */
module PolicyGroups {
  import opened Results
  import opened Rules
  import opened Text

  /** {group: {level: [cidr]}} */
  type Levels = map<Level, seq<string>>
  type Groups = map<string, Levels>

  datatype Entry = Entry(group: string, level: Level, ips: seq<string>)

  // ---- Python's strip and lower ----

  function StripLeft(s: string): string
  {
    if s != "" && IsSpace(s[0]) then StripLeft(s[1..]) else s
  }

  function Strip(s: string): string
  {
    StripRight(StripLeft(s))
  }

  predicate Trimmed(s: string)
  {
    s != "" && !IsSpace(s[0]) && !IsSpace(s[|s| - 1])
  }

  function Lower(c: char): char
  {
    if 'A' <= c <= 'Z' then c - 'A' + 'a' else c
  }

  /** The level a text names once stripped and lowered, if any. */
  function LevelNamed(s: string): Option<Level>
  {
    var t := Strip(s);
    if |t| == 2 && Lower(t[0]) == 'r' && Lower(t[1]) == 'w' then Some(RW)
    else if |t| == 2 && Lower(t[0]) == 'r' && Lower(t[1]) == 'o' then Some(RO)
    else None
  }

  // ---- parsing ----

  /** The stripped, non-empty items of a comma-separated list. */
  function Items(parts: seq<string>): seq<string>
  {
    if parts == [] then []
    else (if Strip(parts[0]) == "" then [] else [Strip(parts[0])]) + Items(parts[1..])
  }

  /** One entry; None if it is empty or malformed and therefore skipped. */
  function ParseEntry(text: string): Option<Entry>
  {
    var parts := Split(Strip(text), ':');
    if |parts| != 3 then None
    else
      var group, level := Strip(parts[0]), LevelNamed(parts[1]);
      if group == "" || level.None? then None
      else Some(Entry(group, level.value, Items(Split(parts[2], ','))))
  }

  function LevelsOf(g: Groups, group: string): Levels
  {
    if group in g then g[group] else map[]
  }

  function IpsOf(l: Levels, level: Level): seq<string>
  {
    if level in l then l[level] else []
  }

  /** setdefault and extend. */
  function Added(g: Groups, e: Entry): Groups
  {
    var l := LevelsOf(g, e.group);
    g[e.group := l[e.level := IpsOf(l, e.level) + e.ips]]
  }

  function AddedText(g: Groups, text: string): Groups
  {
    match ParseEntry(text)
    case None => g
    case Some(e) => Added(g, e)
  }

  function AddedAll(g: Groups, texts: seq<string>): Groups
  {
    if texts == [] then g else AddedText(AddedAll(g, texts[..|texts| - 1]), texts[|texts| - 1])
  }

  function Parsed(spec: string): Groups
  {
    AddedAll(map[], Split(spec, ';'))
  }

  /** _parse_policy_groups: a dictionary grown entry by entry. */
  method ParsePolicyGroups(spec: string) returns (groups: Groups)
    ensures groups == Parsed(spec)
  {
    hide IsSpace, Strip, LevelNamed, Items, Split;
    groups := map[];
    var entries := Split(spec, ';');
    for i := 0 to |entries|
      invariant groups == AddedAll(map[], entries[..i])
    {
      assert entries[..i + 1][..i] == entries[..i];
      ghost var before := groups;
      var parts := Split(Strip(entries[i]), ':');
      if |parts| == 3 {
        var group, level := Strip(parts[0]), LevelNamed(parts[1]);
        if group != "" && level.Some? {
          var ips := Items(Split(parts[2], ','));
          if group !in groups {
            groups := groups[group := map[]];
          }
          if level.value !in groups[group] {
            groups := groups[group := groups[group][level.value := []]];
          }
          groups := groups[group := groups[group][level.value := groups[group][level.value] + ips]];
          GrownInPlace(before, group, level.value, ips);
        }
      }
    }
    assert entries[..|entries|] == entries;
  }

  /** setdefault twice, then extend. */
  lemma GrownInPlace(g: Groups, group: string, level: Level, ips: seq<string>)
    ensures var g1 := if group !in g then g[group := map[]] else g;
            var g2 := if level !in g1[group] then g1[group := g1[group][level := []]] else g1;
            g2[group := g2[group][level := g2[group][level] + ips]] == Added(g, Entry(group, level, ips))
  {
    var l := LevelsOf(g, group);
    var l2 := if level !in l then l[level := []] else l;
    assert l2[level := l2[level] + ips] == l[level := IpsOf(l, level) + ips];
  }

  // ---- the parser is a homomorphism ----

  function MergedLevels(a: Levels, b: Levels): Levels
  {
    map l | l in a.Keys + b.Keys :: IpsOf(a, l) + IpsOf(b, l)
  }

  /** Both maps together, the address lists of each group and level appended in order. */
  function Merged(a: Groups, b: Groups): Groups
  {
    map g | g in a.Keys + b.Keys :: MergedLevels(LevelsOf(a, g), LevelsOf(b, g))
  }

  lemma LevelsMerge(a: Levels, b: Levels, level: Level, ips: seq<string>)
    ensures MergedLevels(a, b)[level := IpsOf(MergedLevels(a, b), level) + ips] == MergedLevels(a, b[level := IpsOf(b, level) + ips])
  {
    hide MergedLevels, IpsOf;
    var left, right := MergedLevels(a, b)[level := IpsOf(MergedLevels(a, b), level) + ips], MergedLevels(a, b[level := IpsOf(b, level) + ips]);
    forall l: Level
      ensures l in left <==> l in right
      ensures l in left ==> left[l] == right[l]
    {
      LevelsMergeAt(a, b, level, ips, l);
    }
  }

  lemma LevelsMergeAt(a: Levels, b: Levels, level: Level, ips: seq<string>, l: Level)
    ensures var left, right := MergedLevels(a, b)[level := IpsOf(MergedLevels(a, b), level) + ips], MergedLevels(a, b[level := IpsOf(b, level) + ips]);
      (l in left <==> l in right) && (l in left ==> left[l] == right[l])
  {
    LevelMerge(a, b, l);
    LevelMerge(a, b[level := IpsOf(b, level) + ips], l);
    hide MergedLevels;
    if l == level {
      assert IpsOf(a, l) + IpsOf(b, l) + ips == IpsOf(a, l) + (IpsOf(b, l) + ips);
    }
  }

  lemma LevelMerge(a: Levels, b: Levels, l: Level)
    ensures l in MergedLevels(a, b) <==> l in a || l in b
    ensures l in MergedLevels(a, b) ==> MergedLevels(a, b)[l] == IpsOf(a, l) + IpsOf(b, l)
    ensures IpsOf(MergedLevels(a, b), l) == IpsOf(a, l) + IpsOf(b, l)
  {
  }

  lemma AddedMerges(a: Groups, b: Groups, e: Entry)
    ensures Added(Merged(a, b), e) == Merged(a, Added(b, e))
  {
    var la, lb := LevelsOf(a, e.group), LevelsOf(b, e.group);
    LevelsMerge(la, lb, e.level, e.ips);
    MergeLookup(a, b, e.group);
    hide MergedLevels, IpsOf;
    var b', left, right := Added(b, e), Added(Merged(a, b), e), Merged(a, Added(b, e));
    forall g
      ensures g in left <==> g in right
      ensures g in left ==> left[g] == right[g]
    {
      MergeLookup(a, b, g);
      MergeLookup(a, b', g);
      hide Merged;
    }
  }

  lemma MergeLookup(a: Groups, b: Groups, g: string)
    ensures LevelsOf(Merged(a, b), g) == MergedLevels(LevelsOf(a, g), LevelsOf(b, g))
    ensures g in Merged(a, b) <==> g in a || g in b
  {
  }

  /** Every group and level of either, with the addresses of the first and then of the second. */
  lemma MergedExactly(a: Groups, b: Groups, g: string, l: Level)
    ensures g in Merged(a, b) <==> g in a || g in b
    ensures g in Merged(a, b) ==>
      (l in Merged(a, b)[g] <==> (g in a && l in a[g]) || (g in b && l in b[g]))
    ensures g in Merged(a, b) && l in Merged(a, b)[g] ==>
      Merged(a, b)[g][l] == (if g in a && l in a[g] then a[g][l] else []) + (if g in b && l in b[g] then b[g][l] else [])
  {
    MergeLookup(a, b, g);
    LevelMerge(LevelsOf(a, g), LevelsOf(b, g), l);
  }

  lemma MergeNothing(a: Groups)
    ensures Merged(a, map[]) == a
  {
    forall g | g in a
      ensures MergedLevels(a[g], map[]) == a[g]
    {
      forall l | l in a[g] ensures IpsOf(a[g], l) + [] == a[g][l] {}
    }
  }

  lemma {:induction false} AddedAllMerges(a: Groups, texts: seq<string>)
    ensures AddedAll(a, texts) == Merged(a, AddedAll(map[], texts))
  {
    hide ParseEntry, Merged, Added;
    if texts == [] {
      MergeNothing(a);
    } else {
      var front, last := texts[..|texts| - 1], texts[|texts| - 1];
      AddedAllMerges(a, front);
      if ParseEntry(last).Some? {
        AddedMerges(a, AddedAll(map[], front), ParseEntry(last).value);
      }
    }
  }

  lemma {:induction false} AddedAllConcat(a: Groups, s: seq<string>, t: seq<string>)
    ensures AddedAll(a, s + t) == AddedAll(AddedAll(a, s), t)
  {
    hide ParseEntry;
    if t == [] {
      assert s + t == s;
    } else {
      assert (s + t)[..|s + t| - 1] == s + t[..|t| - 1];
      AddedAllConcat(a, s, t[..|t| - 1]);
    }
  }

  /** Parsing two specifications joined by ';' merges their groups. */
  lemma ParseHomomorphism(a: string, b: string)
    ensures Parsed(a + [';'] + b) == Merged(Parsed(a), Parsed(b))
  {
    hide ParseEntry, Merged;
    SplitAt(a, ';', b);
    AddedAllConcat(map[], Split(a, ';'), Split(b, ';'));
    AddedAllMerges(Parsed(a), Split(b, ';'));
  }

  lemma {:induction false} AddedSkips(g: Groups, a: seq<string>, bad: string, b: seq<string>)
    requires ParseEntry(bad).None?
    ensures AddedAll(g, a + [bad] + b) == AddedAll(g, a + b)
  {
    hide ParseEntry;
    AddedAllConcat(g, a + [bad], b);
    AddedAllConcat(g, a, [bad]);
    AddedAllConcat(g, a, b);
    assert [bad][..0] == [];
    assert AddedAll(AddedAll(g, a), [bad]) == AddedAll(g, a);
  }

  /** A malformed entry contributes nothing, wherever it stands: first, last, between others or alone. */
  lemma MalformedEntriesVanish(a: seq<string>, bad: string, b: seq<string>)
    requires ParseEntry(bad).None? && forall t | t in a + [bad] + b :: ';' !in t
    ensures Parsed(Join(a + [bad] + b, ';')) == Parsed(Join(a + b, ';'))
  {
    hide ParseEntry;
    SplitJoin(a + [bad] + b, ';');
    AddedSkips(map[], a, bad, b);
    if a + b == [] {
      EmptyEntry();
      assert Split("", ';') == [""];
    } else {
      SplitJoin(a + b, ';');
    }
  }

  // ---- which texts are entries ----

  /** What is stripped is white space on either side, and all of it. */
  lemma StripSplits(s: string) returns (before: string, behind: string)
    ensures s == before + Strip(s) + behind && Blank(before) && Blank(behind)
    ensures Strip(s) == "" || Trimmed(Strip(s))
  {
    before := StripLeftSplits(s);
    behind := StripRightSplits(StripLeft(s));
    hide IsSpace, StripRight, StripLeft;
    if Strip(s) != "" {
      assert StripLeft(s)[0] == Strip(s)[0];
    }
  }

  lemma {:induction false} StripLeftSplits(s: string) returns (before: string)
    ensures s == before + StripLeft(s) && Blank(before)
    ensures StripLeft(s) != "" ==> !IsSpace(StripLeft(s)[0])
  {
    hide IsSpace;
    before := "";
    if s != "" && IsSpace(s[0]) {
      var rest := StripLeftSplits(s[1..]);
      before := [s[0]] + rest;
    }
  }

  /** A group, a level and addresses between two colons, the group not blank and the level one of
      two words in any case. */
  predicate Spells(text: string, group: string, level: string, ips: string)
  {
    && ':' !in group && ':' !in level && ':' !in ips
    && Strip(text) == group + [':'] + level + [':'] + ips
    && Strip(group) != "" && Strip(level) in {"rw", "rW", "Rw", "RW", "ro", "rO", "Ro", "RO"}
  }

  /** Exactly such a text is an entry, read as its group stripped, its level and its addresses;
      every other one is malformed. */
  lemma EntryExactly(text: string)
    ensures ParseEntry(text).Some? <==> exists group: string, level: string, ips: string :: Spells(text, group, level, ips)
    ensures forall group: string, level: string, ips: string | Spells(text, group, level, ips) ::
      ParseEntry(text) == Some(Entry(Strip(group), if Strip(level) in {"rw", "rW", "Rw", "RW"} then RW else RO, Items(Split(ips, ','))))
  {
    hide Strip, LevelNamed, Items, Split, Spells, ParseEntry;
    if ParseEntry(text).Some? {
      var group, level, ips := EntrySpelled(text);
    }
    forall group: string, level: string, ips: string | Spells(text, group, level, ips)
      ensures ParseEntry(text) == Some(Entry(Strip(group), if Strip(level) in {"rw", "rW", "Rw", "RW"} then RW else RO, Items(Split(ips, ','))))
    {
      SpelledEntry(text, group, level, ips);
    }
  }

  lemma EntrySpelled(text: string) returns (group: string, level: string, ips: string)
    requires ParseEntry(text).Some?
    ensures Spells(text, group, level, ips)
  {
    hide Strip, LevelNamed, Items;
    var parts := Split(Strip(text), ':');
    group, level, ips := parts[0], parts[1], parts[2];
    JoinSplit(Strip(text), ':');
    JoinThree(parts, ':');
    LevelWords(level);
    assert group in parts && level in parts && ips in parts;
  }

  lemma SpelledEntry(text: string, group: string, level: string, ips: string)
    requires Spells(text, group, level, ips)
    ensures ParseEntry(text) == Some(Entry(Strip(group), if Strip(level) in {"rw", "rW", "Rw", "RW"} then RW else RO, Items(Split(ips, ','))))
  {
    SplitThree(group, level, ips, ':');
    hide Strip, LevelNamed, Items, Split;
    LevelWords(level);
  }

  lemma JoinThree(parts: seq<string>, c: char)
    requires |parts| == 3
    ensures Join(parts, c) == parts[0] + [c] + parts[1] + [c] + parts[2]
  {
    assert Join(parts[1..], c) == parts[1] + [c] + Join(parts[1..][1..], c);
  }

  lemma LevelWords(s: string)
    ensures LevelNamed(s) == Some(RW) <==> Strip(s) in {"rw", "rW", "Rw", "RW"}
    ensures LevelNamed(s) == Some(RO) <==> Strip(s) in {"ro", "rO", "Ro", "RO"}
    ensures LevelNamed(s).Some? <==> LevelNamed(s) == Some(RW) || LevelNamed(s) == Some(RO)
  {
    hide Strip;
    var t := Strip(s);
    if |t| == 2 {
      assert t == [t[0], t[1]];
    }
  }

  lemma SplitThree(x: string, y: string, z: string, c: char)
    requires c !in x && c !in y && c !in z
    ensures Split(x + [c] + y + [c] + z, c) == [x, y, z]
  {
    SplitAt(x + [c] + y, c, z);
    SplitAt(x, c, y);
    SplitNone(x, c);
    SplitNone(y, c);
    SplitNone(z, c);
  }

  /** Of its addresses the blank ones are left out and the others stripped. */
  lemma {:induction false} ItemsConcat(a: seq<string>, b: seq<string>)
    ensures Items(a + b) == Items(a) + Items(b)
    ensures |b| == 1 ==> Items(b) == if Strip(b[0]) == "" then [] else [Strip(b[0])]
  {
    hide Strip;
    if a == [] {
      assert a + b == b;
    } else {
      assert (a + b)[1..] == a[1..] + b;
      ItemsConcat(a[1..], b);
    }
  }

  /** A text of one entry is a map of one, or of none. */
  lemma ParsedOne(text: string)
    requires ';' !in text
    ensures Parsed(text) == match ParseEntry(text)
                            case None => map[]
                            case Some(e) => map[e.group := map[e.level := e.ips]]
  {
    hide ParseEntry;
    SplitNone(text, ';');
    assert [text][..0] == [];
    assert AddedAll(map[], [text]) == AddedText(map[], text);
    if ParseEntry(text).Some? {
      assert [] + ParseEntry(text).value.ips == ParseEntry(text).value.ips;
    }
  }

  // ---- parsing inverts printing ----

  function ShowEntry(e: Entry): string
  {
    e.group + [':'] + (e.level.Text() + [':'] + Join(e.ips, ','))
  }

  function ShowEntries(es: seq<Entry>): seq<string>
  {
    if es == [] then [] else ShowEntries(es[..|es| - 1]) + [ShowEntry(es[|es| - 1])]
  }

  function Show(es: seq<Entry>): string
  {
    Join(ShowEntries(es), ';')
  }

  predicate CleanItem(s: string)
  {
    Trimmed(s) && ';' !in s && ':' !in s && ',' !in s
  }

  /** Names and addresses free of separators and of surrounding white space. */
  predicate CleanEntry(e: Entry)
  {
    && Trimmed(e.group) && ';' !in e.group && ':' !in e.group
    && forall ip | ip in e.ips :: CleanItem(ip)
  }

  lemma StripTrimmed(s: string)
    requires Trimmed(s)
    ensures Strip(s) == s
  {
  }

  lemma {:induction false} ItemsClean(ips: seq<string>)
    requires forall ip | ip in ips :: CleanItem(ip)
    ensures Items(ips) == ips
  {
    hide IsSpace, Strip;
    if ips != [] {
      assert CleanItem(ips[0]);
      StripTrimmed(ips[0]);
      ItemsClean(ips[1..]);
    }
  }

  lemma ItemsOfJoin(ips: seq<string>)
    requires forall ip | ip in ips :: CleanItem(ip)
    ensures Items(Split(Join(ips, ','), ',')) == ips
  {
    hide IsSpace;
    if ips == [] {
      assert Split("", ',') == [""];
      assert Strip("") == "";
      assert [""][1..] == [];
      assert Items([""][1..]) == [];
      assert Items([""]) == [];
    } else {
      SplitJoin(ips, ',');
      ItemsClean(ips);
    }
  }

  lemma {:induction false} JoinTrimmed(ips: seq<string>)
    requires ips != [] && forall ip | ip in ips :: CleanItem(ip)
    ensures var t := Join(ips, ','); t != "" && !IsSpace(t[|t| - 1])
  {
    hide IsSpace;
    if |ips| == 1 {
      assert CleanItem(ips[0]);
    } else {
      JoinTrimmed(ips[1..]);
      var t, rest := Join(ips, ','), Join(ips[1..], ',');
      assert t[|t| - 1] == rest[|rest| - 1];
    }
  }

  lemma ShowEntryTrimmed(e: Entry)
    requires CleanEntry(e)
    ensures Trimmed(ShowEntry(e)) && ';' !in ShowEntry(e)
  {
    hide IsSpace;
    var t, tail := ShowEntry(e), Join(e.ips, ',');
    assert t[0] == e.group[0];
    JoinFree(e.ips, ',', ';');
    if e.ips == [] {
      assert t[|t| - 1] == ':';
      assert !IsSpace(':') by { ColonIsNoSpace(); }
    } else {
      JoinTrimmed(e.ips);
      assert t[|t| - 1] == tail[|tail| - 1];
    }
  }

  lemma ColonIsNoSpace()
    ensures !IsSpace(':')
  {
  }

  lemma EntryRoundTrip(e: Entry)
    requires CleanEntry(e)
    ensures ParseEntry(ShowEntry(e)) == Some(e)
  {
    hide IsSpace, Strip, Trimmed;
    ShowEntryTrimmed(e);
    StripTrimmed(ShowEntry(e));
    var level, tail := e.level.Text(), Join(e.ips, ',');
    JoinFree(e.ips, ',', ':');
    SplitAt(e.group, ':', level + [':'] + tail);
    SplitAt(level, ':', tail);
    SplitNone(e.group, ':');
    SplitNone(level, ':');
    SplitNone(tail, ':');
    StripTrimmed(e.group);
    assert e.group != "" by { NotEmpty(e.group); }
    LevelRoundTrip(e.level);
    ItemsOfJoin(e.ips);
  }

  lemma NotEmpty(s: string)
    requires Trimmed(s)
    ensures s != ""
  {
  }

  lemma LevelRoundTrip(level: Level)
    ensures LevelNamed(level.Text()) == Some(level)
  {
    StripTrimmed(level.Text());
  }

  function AddedEntries(g: Groups, es: seq<Entry>): Groups
  {
    if es == [] then g else Added(AddedEntries(g, es[..|es| - 1]), es[|es| - 1])
  }

  lemma {:induction false} ShownEntriesParse(es: seq<Entry>)
    requires forall e | e in es :: CleanEntry(e)
    ensures AddedAll(map[], ShowEntries(es)) == AddedEntries(map[], es)
    ensures forall t | t in ShowEntries(es) :: ';' !in t
    ensures |ShowEntries(es)| == |es|
  {
    hide ParseEntry, ShowEntry, CleanEntry;
    if es != [] {
      var front, last := es[..|es| - 1], es[|es| - 1];
      assert last in es;
      ShownEntriesParse(front);
      EntryRoundTrip(last);
      ShowEntryTrimmed(last);
      assert ShowEntries(es)[..|ShowEntries(es)| - 1] == ShowEntries(front);
    }
  }

  /** Printed entries parse to what adding them one by one builds. */
  lemma ParseOfShow(es: seq<Entry>)
    requires forall e | e in es :: CleanEntry(e)
    ensures Parsed(Show(es)) == AddedEntries(map[], es)
  {
    hide ParseEntry, ShowEntry, CleanEntry;
    ShownEntriesParse(es);
    if es == [] {
      assert Split("", ';') == [""];
      assert [""][..0] == [];
      EmptyEntry();
      assert AddedAll(map[], [""]) == map[];
    } else {
      SplitJoin(ShowEntries(es), ';');
    }
  }

  lemma EmptyEntry()
    ensures ParseEntry("").None?
  {
    assert Strip("") == "";
    assert Split("", ':') == [""];
  }

  ghost predicate Found(e: Entry, g: Groups)
  {
    e.group in g && e.level in g[e.group] && g[e.group][e.level] == e.ips
  }

  ghost predicate Listed(es: seq<Entry>, k: string, l: Level)
  {
    exists e | e in es :: e.group == k && e.level == l
  }

  ghost predicate DistinctEntries(es: seq<Entry>)
  {
    forall i, j | 0 <= i < j < |es| :: es[i].group != es[j].group || es[i].level != es[j].level
  }

  /** The entries list the map: one for each group and level, no other. */
  ghost predicate Lists(es: seq<Entry>, g: Groups)
  {
    && (forall e | e in es :: Found(e, g))
    && (forall k, l | k in g && l in g[k] :: Listed(es, k, l))
    && (forall k | k in g :: g[k] != map[])
  }

  /** Distinct entries, added one by one, are each found as they are. */
  lemma {:induction false} DistinctEntriesStay(es: seq<Entry>)
    requires DistinctEntries(es)
    ensures Lists(es, AddedEntries(map[], es))
  {
    if es == [] {
    } else {
      var front, last := es[..|es| - 1], es[|es| - 1];
      hide Lists, Listed, Added, IpsOf, LevelsOf;
      assert forall i | 0 <= i < |front| :: front[i] == es[i];
      DistinctEntriesStay(front);
      NewEntry(es);
      hide DistinctEntries;
      OneEntryMore(front, AddedEntries(map[], front), last);
      assert es == front + [last];
    }
  }

  lemma NewEntry(es: seq<Entry>)
    requires es != [] && DistinctEntries(es)
    ensures !Listed(es[..|es| - 1], es[|es| - 1].group, es[|es| - 1].level)
  {
    var front, last := es[..|es| - 1], es[|es| - 1];
    forall e | e in front
      ensures e.group != last.group || e.level != last.level
    {
      var i :| 0 <= i < |front| && front[i] == e;
      assert es[i] == e;
    }
  }

  /** Adding an entry leaves every other group and level, and adds no other. */
  lemma AddedElsewhere(r: Groups, e: Entry)
    ensures forall k, l | k != e.group || l != e.level ::
      k in Added(r, e) && l in Added(r, e)[k] <==> k in r && l in r[k]
    ensures forall k, l | (k != e.group || l != e.level) && k in r && l in r[k] :: Added(r, e)[k][l] == r[k][l]
    ensures forall k | k in Added(r, e) :: Added(r, e)[k] != map[] || (k in r && r[k] == map[])
  {
    assert e.level in Added(r, e)[e.group];
  }

  lemma OneEntryMore(front: seq<Entry>, r: Groups, last: Entry)
    requires Lists(front, r) && !Listed(front, last.group, last.level)
    ensures Lists(front + [last], Added(r, last))
  {
    var es, r' := front + [last], Added(r, last);
    assert IpsOf(LevelsOf(r, last.group), last.level) == [];
    assert [] + last.ips == last.ips;
    assert Found(last, r');
    hide Added;
    AddedElsewhere(r, last);
    forall e | e in es
      ensures Found(e, r')
    {
      if e in front {
        assert Found(e, r);
        assert Listed(front, e.group, e.level);
      }
    }
    forall k, l | k in r' && l in r'[k]
      ensures Listed(es, k, l)
    {
      if k == last.group && l == last.level {
        assert last in es;
      } else {
        assert Listed(front, k, l);
        var e :| e in front && e.group == k && e.level == l;
        assert e in es;
      }
    }
  }

  /** Printing a map in any order and parsing it gives the map back. */
  lemma PrintParseRoundTrip(g: Groups, es: seq<Entry>)
    requires Lists(es, g) && DistinctEntries(es) && forall e | e in es :: CleanEntry(e)
    ensures Parsed(Show(es)) == g
  {
    hide CleanEntry, Lists;
    ParseOfShow(es);
    DistinctEntriesStay(es);
    ListsDetermines(es, g, AddedEntries(map[], es));
  }

  lemma ListsDetermines(es: seq<Entry>, g: Groups, r: Groups)
    requires Lists(es, g) && Lists(es, r)
    ensures g == r
  {
    forall k
      ensures k in g ==> k in r && g[k] == r[k]
      ensures k in r ==> k in g
    {
      LevelsAgree(es, g, r, k);
      LevelsAgree(es, r, g, k);
    }
  }

  lemma LevelsAgree(es: seq<Entry>, g: Groups, r: Groups, k: string)
    requires Lists(es, g) && Lists(es, r)
    ensures k in g ==> k in r && forall l | l in g[k] :: l in r[k] && r[k][l] == g[k][l]
  {
    if k in g {
      forall l | l in g[k]
        ensures k in r && l in r[k] && r[k][l] == g[k][l]
      {
        assert Listed(es, k, l);
        var e :| e in es && e.group == k && e.level == l;
        assert Found(e, g) && Found(e, r);
      }
      var l :| l in g[k];
    }
  }
}
