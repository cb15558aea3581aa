/** What WEKAFS access means for one share, as values: the address sets and
    attachments of its rw and ro policies, and what rule updates do to them. */
module AccessView {
  import opened Results
  import opened RuleMaps
  import opened Rules
  import Net

  /** A rule's canonical address and level. */
  type Grant = Binding<Level>

  /** None for rules that map to no address: other types, IPv6, malformed networks. */
  function GrantOf(rule: Rule, v6: Ipv6Test): Option<Binding<Level>>
  {
    if !Ipv4(rule, v6) then None
    else match Net.PolicyIp(rule.to)
      case None => None
      case Some(ip) => Some(Binding(ip, LevelOf(rule)))
  }

  predicate Malformed(rule: Rule, v6: Ipv6Test)
  {
    Ipv4(rule, v6) && Net.PolicyIp(rule.to).None?
  }

  /** The reading of rules as grants. */
  function Grants(v6: Ipv6Test): Reading<Level>
  {
    (r: Rule) => GrantOf(r, v6)
  }

  /** One level's policy: its addresses, its read-only flag, whether it is attached to the share. */
  datatype LevelView = Absent | Present(ips: set<string>, readOnly: bool, attached: bool)
  {
    function Ips(): set<string>
    {
      if Present? then ips else {}
    }
  }

  datatype View = View(rw: LevelView, ro: LevelView)
  {
    function At(level: Level): LevelView
    {
      if level.RW? then rw else ro
    }

    function With(level: Level, lv: LevelView): View
    {
      if level.RW? then View(lv, ro) else View(rw, lv)
    }
  }

  // ---- the effect of fault-free operations ----

  function Put(lv: LevelView, level: Level, ip: string, hasFs: bool): LevelView
  {
    match lv
    case Absent => Present({ip}, level.RO?, hasFs)
    case Present(ips, readOnly, attached) => Present(ips + {ip}, readOnly, attached || hasFs)
  }

  function Drop(lv: LevelView, ip: string): LevelView
  {
    if lv.Absent? || lv.ips - {ip} == {} then Absent else lv.(ips := lv.ips - {ip})
  }

  function ApplyOne(v: View, rule: Rule, hasFs: bool, v6: Ipv6Test): View
  {
    match GrantOf(rule, v6)
    case None => v
    case Some(Binding(ip, level)) =>
      var w := v.With(level, Put(v.At(level), level, ip, hasFs));
      w.With(level.Other(), Drop(w.At(level.Other()), ip))
  }

  function RemoveOne(v: View, rule: Rule, v6: Ipv6Test): View
  {
    match GrantOf(rule, v6)
    case None => v
    case Some(Binding(ip, _)) => View(Drop(v.rw, ip), Drop(v.ro, ip))
  }

  function Applied(v: View, rules: seq<Rule>, hasFs: bool, v6: Ipv6Test): View
  {
    if rules == [] then v
    else ApplyOne(Applied(v, rules[..|rules| - 1], hasFs, v6), rules[|rules| - 1], hasFs, v6)
  }

  function Removed(v: View, rules: seq<Rule>, v6: Ipv6Test): View
  {
    if rules == [] then v
    else RemoveOne(Removed(v, rules[..|rules| - 1], v6), rules[|rules| - 1], v6)
  }

  /** Addresses the rules back at one level. */
  function Expected(rules: seq<Rule>, level: Level, v6: Ipv6Test): set<string>
  {
    set r | r in rules && GrantOf(r, v6).Some? && GrantOf(r, v6).value.value == level :: GrantOf(r, v6).value.key
  }

  /** A level after pruning: untouched when nothing is stale, gone when nothing is left. */
  function Kept(lv: LevelView, keep: set<string>): LevelView
  {
    if lv.Absent? || lv.ips <= keep then lv
    else if lv.ips * keep == {} then Absent
    else lv.(ips := lv.ips * keep)
  }

  function Pruned(v: View, rules: seq<Rule>, v6: Ipv6Test): View
  {
    View(Kept(v.rw, Expected(rules, RW, v6)), Kept(v.ro, Expected(rules, RO, v6)))
  }

  /** A full sync with well-formed rules. */
  function Synced(v: View, rules: seq<Rule>, hasFs: bool, v6: Ipv6Test): View
  {
    Pruned(Applied(v, rules, hasFs, v6), rules, v6)
  }

  // ---- the abstract meaning: a map from address to level ----

  type Access = map<string, Level>

  /** Each address at the level of the last rule naming it. */
  function LastLevel(rules: seq<Rule>, v6: Ipv6Test): Access
  {
    Overlay(map[], rules, Grants(v6))
  }

  /** The policies hold exactly the mapped addresses; each one left is non-empty and attached. */
  ghost predicate Exact(v: View, m: Access)
  {
    forall l: Level ::
      && (forall a: string :: a in v.At(l).Ips() <==> a in m && m[a] == l)
      && (v.At(l).Present? ==> v.At(l).ips != {} && v.At(l).attached)
  }

  predicate NoEmpty(v: View)
  {
    (v.rw.Present? ==> v.rw.ips != {}) && (v.ro.Present? ==> v.ro.ips != {})
  }

  predicate Flagged(lv: LevelView, readOnly: bool)
  {
    lv.Present? ==> lv.readOnly == readOnly
  }

  /** The rw policy is read-write and the ro policy read-only. */
  predicate WellFlagged(v: View)
  {
    Flagged(v.rw, false) && Flagged(v.ro, true)
  }

  /** Same addresses and attachments at both levels. */
  predicate SameAccess(v: View, w: View)
  {
    && (v.rw.Absent? <==> w.rw.Absent?) && (v.rw.Present? ==> v.rw.ips == w.rw.ips && v.rw.attached == w.rw.attached)
    && (v.ro.Absent? <==> w.ro.Absent?) && (v.ro.Present? ==> v.ro.ips == w.ro.ips && v.ro.attached == w.ro.attached)
  }

  /** An address is granted at a level and not at the other, by an attached policy. */
  predicate Granted(v: View, g: Grant)
  {
    v.At(g.value).Present? && g.key in v.At(g.value).ips && v.At(g.value).attached && g.key !in v.At(g.value.Other()).Ips()
  }

  // ---- full sync is self-stabilising ----

  /** How a view follows the overlay of an address map by the applied rules. */
  ghost predicate Tracks(v: View, m: Access, w: View)
  {
    && (forall l: Level, a: string :: a in w.At(l).Ips() <==> if a in m then m[a] == l else a in v.At(l).Ips())
    && (forall a | a in m :: w.At(m[a]).attached)
    && (NoEmpty(v) || m != map[] ==> NoEmpty(w))
    && (WellFlagged(v) ==> WellFlagged(w))
  }

  lemma {:induction false} AppliedTracks(v: View, rules: seq<Rule>, v6: Ipv6Test)
    ensures Tracks(v, LastLevel(rules, v6), Applied(v, rules, true, v6))
  {
    hide GrantOf;
    if rules == [] {
    } else {
      var front := rules[..|rules| - 1];
      AppliedTracks(v, front, v6);
      var g := GrantOf(rules[|rules| - 1], v6);
      if g.Some? {
        ApplyTracks(v, LastLevel(front, v6), Applied(v, front, true, v6), rules[|rules| - 1], v6);
      }
    }
  }

  lemma ApplyTracks(v: View, m: Access, w: View, rule: Rule, v6: Ipv6Test)
    requires Tracks(v, m, w) && GrantOf(rule, v6).Some?
    ensures var g := GrantOf(rule, v6).value;
            Tracks(v, m[g.key := g.value], ApplyOne(w, rule, true, v6))
  {
    hide GrantOf;
    var g := GrantOf(rule, v6).value;
    var w' := ApplyOne(w, rule, true, v6);
    var m' := m[g.key := g.value];
    var here, there := g.value, g.value.Other();
    assert w'.At(here) == Put(w.At(here), here, g.key, true) && w'.At(there) == Drop(w.At(there), g.key);
    forall l: Level, a: string
      ensures a in w'.At(l).Ips() <==> if a in m' then m'[a] == l else a in v.At(l).Ips()
    {
      assert l == here || l == there;
      assert a in w.At(l).Ips() <==> if a in m then m[a] == l else a in v.At(l).Ips();
    }
    forall a | a in m'
      ensures w'.At(m'[a]).Present? && w'.At(m'[a]).attached
    {
      assert a in w'.At(m'[a]).Ips();
    }
    assert NoEmpty(w') by {
      assert w'.At(here).ips != {} && (w'.At(there).Present? ==> w'.At(there).ips != {});
    }
    assert WellFlagged(v) ==> WellFlagged(w');
  }

  /** The map is empty exactly when no rule grants anything. */
  lemma NothingNamed(rules: seq<Rule>, v6: Ipv6Test)
    ensures LastLevel(rules, v6) == map[] <==> forall r | r in rules :: GrantOf(r, v6).None?
  {
    hide GrantOf;
    var m := LastLevel(rules, v6);
    OverlayNames(map[], rules, Grants(v6));
    if r :| r in rules && GrantOf(r, v6).Some? {
      assert Names(Grants(v6), r, GrantOf(r, v6).value.key);
      assert GrantOf(r, v6).value.key in m;
    } else {
      forall a
        ensures a !in m
      {
        assert a in m <==> exists r | r in rules :: Names(Grants(v6), r, a);
      }
    }
  }

  /** Pruning a view that follows the rules' map leaves exactly that map. */
  lemma PruneExact(v: View, w: View, rules: seq<Rule>, v6: Ipv6Test)
    requires Tracks(v, LastLevel(rules, v6), w) && NoEmpty(w)
    ensures Exact(Pruned(w, rules, v6), LastLevel(rules, v6))
  {
    hide GrantOf, LastLevel, Expected;
    var m, p := LastLevel(rules, v6), Pruned(w, rules, v6);
    assert p.At(RW) == Kept(w.At(RW), Expected(rules, RW, v6)) && p.At(RO) == Kept(w.At(RO), Expected(rules, RO, v6));
    forall l: Level
      ensures forall a :: a in p.At(l).Ips() <==> a in m && m[a] == l
      ensures p.At(l).Present? ==> p.At(l).ips != {} && p.At(l).attached
    {
      ExpectedCoversLast(rules, l, v6);
      var keep := Expected(rules, l, v6);
      assert p.At(l) == Kept(w.At(l), keep);
      assert w.At(l).Present? ==> w.At(l).ips != {};
      forall a
        ensures a in p.At(l).Ips() <==> a in m && m[a] == l
      {
        assert a in w.At(l).Ips() <==> if a in m then m[a] == l else a in v.At(l).Ips();
        assert a in p.At(l).Ips() <==> a in w.At(l).Ips() && a in keep;
      }
      if p.At(l).Present? {
        var a :| a in p.At(l).ips;
        assert a in m && w.At(m[a]).attached;
      }
    }
  }

  /** From any starting contents a full sync leaves exactly the last level of every named
      address, and fails to only for a share with an empty policy and no IPv4 ip rule. */
  lemma FullSyncSelfStabilises(v: View, rules: seq<Rule>, v6: Ipv6Test)
    ensures Exact(Synced(v, rules, true, v6), LastLevel(rules, v6)) <==>
            NoEmpty(v) || exists r | r in rules :: GrantOf(r, v6).Some?
    ensures WellFlagged(v) ==> WellFlagged(Synced(v, rules, true, v6))
  {
    hide GrantOf, LastLevel, Expected;
    var m := LastLevel(rules, v6);
    var w := Applied(v, rules, true, v6);
    AppliedTracks(v, rules, v6);
    NothingNamed(rules, v6);
    if NoEmpty(v) || m != map[] {
      PruneExact(v, w, rules, v6);
    } else {
      AppliedNothing(v, rules, v6);
      var l := if v.rw.Present? && v.rw.ips == {} then RW else RO;
      assert Synced(v, rules, true, v6).At(l) == Kept(v.At(l), Expected(rules, l, v6)) == v.At(l);
    }
  }

  /** An empty policy is left alone by a full sync in which no rule grants an address. */
  lemma EmptyPolicySurvives(v: View, l: Level, rules: seq<Rule>, v6: Ipv6Test)
    requires v.At(l).Present? && v.At(l).ips == {} && forall r | r in rules :: GrantOf(r, v6).None?
    ensures Synced(v, rules, true, v6).At(l) == v.At(l) && !Exact(Synced(v, rules, true, v6), LastLevel(rules, v6))
  {
    hide GrantOf, LastLevel;
    AppliedNothing(v, rules, v6);
    assert Synced(v, rules, true, v6).At(l) == Kept(v.At(l), Expected(rules, l, v6));
  }

  /** Rules without a grant change nothing. */
  lemma {:induction false} AppliedNothing(v: View, rules: seq<Rule>, v6: Ipv6Test)
    requires forall r | r in rules :: GrantOf(r, v6).None?
    ensures Applied(v, rules, true, v6) == v
  {
    hide GrantOf;
    if rules != [] {
      AppliedNothing(v, rules[..|rules| - 1], v6);
    }
  }

  lemma ExpectedCoversLast(rules: seq<Rule>, l: Level, v6: Ipv6Test)
    ensures forall a | a in LastLevel(rules, v6) && LastLevel(rules, v6)[a] == l :: a in Expected(rules, l, v6)
    ensures forall a | a in Expected(rules, l, v6) :: a in LastLevel(rules, v6)
  {
    hide GrantOf;
    var m := LastLevel(rules, v6);
    OverlayNames(map[], rules, Grants(v6));
    forall a | a in m && m[a] == l
      ensures a in Expected(rules, l, v6)
    {
      OverlayValue(map[], rules, a, Grants(v6));
    }
    forall a | a in Expected(rules, l, v6)
      ensures a in m
    {
      var r :| r in rules && GrantOf(r, v6) == Some(Binding(a, l));
      assert Names(Grants(v6), r, a);
    }
  }

  // ---- incremental updates refine full sync ----

  function SteppedView(v: View, d: Delta, v6: Ipv6Test): View
  {
    Removed(Applied(v, d.add + d.update, true, v6), d.delete, v6)
  }

  lemma {:induction false} ApplyingKeepsExact(v: View, m: Access, rules: seq<Rule>, v6: Ipv6Test)
    requires Exact(v, m)
    ensures Exact(Applied(v, rules, true, v6), Overlay(m, rules, Grants(v6)))
  {
    hide GrantOf;
    if rules == [] {
    } else {
      var front, last := rules[..|rules| - 1], rules[|rules| - 1];
      ApplyingKeepsExact(v, m, front, v6);
      if GrantOf(last, v6).Some? {
        ApplyOneExact(Applied(v, front, true, v6), Overlay(m, front, Grants(v6)), last, v6);
      }
    }
  }

  lemma ApplyOneExact(v: View, m: Access, rule: Rule, v6: Ipv6Test)
    requires Exact(v, m) && GrantOf(rule, v6).Some?
    ensures var g := GrantOf(rule, v6).value; Exact(ApplyOne(v, rule, true, v6), m[g.key := g.value])
  {
    hide GrantOf;
    var g := GrantOf(rule, v6).value;
    var w := ApplyOne(v, rule, true, v6);
    var m' := m[g.key := g.value];
    var here, there := g.value, g.value.Other();
    assert w.At(here) == Put(v.At(here), here, g.key, true) && w.At(there) == Drop(v.At(there), g.key);
    forall l: Level
      ensures forall a :: a in w.At(l).Ips() <==> a in m' && m'[a] == l
      ensures w.At(l).Present? ==> w.At(l).ips != {} && w.At(l).attached
    {
      assert l == here || l == there;
    }
  }

  lemma {:induction false} RemovingKeepsExact(v: View, m: Access, rules: seq<Rule>, v6: Ipv6Test)
    requires Exact(v, m)
    ensures Exact(Removed(v, rules, v6), Withdrawn(m, rules, Grants(v6)))
  {
    hide GrantOf;
    if rules == [] {
      assert Withdrawn(m, rules, Grants(v6)) == m;
    } else {
      var front, last := rules[..|rules| - 1], rules[|rules| - 1];
      RemovingKeepsExact(v, m, front, v6);
      WithdrawnLast(m, rules, Grants(v6));
      if GrantOf(last, v6).Some? {
        RemoveOneExact(Removed(v, front, v6), Withdrawn(m, front, Grants(v6)), last, v6);
      }
    }
  }

  lemma RemoveOneExact(v: View, m: Access, rule: Rule, v6: Ipv6Test)
    requires Exact(v, m) && GrantOf(rule, v6).Some?
    ensures Exact(RemoveOne(v, rule, v6), m - {GrantOf(rule, v6).value.key})
  {
    hide GrantOf;
    var ip := GrantOf(rule, v6).value.key;
    var w := RemoveOne(v, rule, v6);
    assert w.At(RW) == Drop(v.At(RW), ip) && w.At(RO) == Drop(v.At(RO), ip);
    forall l: Level
      ensures forall a :: a in w.At(l).Ips() <==> a in m && a != ip && m[a] == l
      ensures w.At(l).Present? ==> w.At(l).ips != {} && w.At(l).attached
    {
    }
  }

  /** An incremental call does to exact policies what it does to the address map, whatever the rules. */
  lemma StepKeepsExact(v: View, m: Access, d: Delta, v6: Ipv6Test)
    requires Exact(v, m)
    ensures Exact(SteppedView(v, d, v6), Stepped(m, d, Grants(v6)))
  {
    hide GrantOf;
    ApplyingKeepsExact(v, m, d.add + d.update, v6);
    RemovingKeepsExact(Applied(v, d.add + d.update, true, v6), Overlay(m, d.add + d.update, Grants(v6)), d.delete, v6);
  }

  lemma GrantsIgnoreLevel(v6: Ipv6Test)
    ensures KeyIgnoresLevel(Grants(v6))
  {
    hide Net.PolicyIp;
  }

  // ---- runs ----

  function Run(v: View, deltas: seq<Delta>, v6: Ipv6Test): View
    decreases |deltas|
  {
    if deltas == [] then v else Run(SteppedView(v, deltas[0], v6), deltas[1..], v6)
  }

  lemma {:induction false} RunExact(v: View, m: Access, rs: RuleSet, deltas: seq<Delta>, v6: Ipv6Test) returns (n: Access)
    requires Exact(v, m) && Denotes(rs, m, Grants(v6)) && Filed(rs) && Distinct(rs, Grants(v6)) && LegalRun(rs, deltas, Grants(v6))
    ensures Exact(Run(v, deltas, v6), n) && Denotes(FinalRules(rs, deltas), n, Grants(v6))
    ensures Distinct(FinalRules(rs, deltas), Grants(v6))
    decreases |deltas|
  {
    hide GrantOf, Exact, Denotes, Distinct, Legal, KeyIgnoresLevel, Stepped, SteppedView;
    if deltas == [] {
      n := m;
    } else {
      var d := deltas[0];
      GrantsIgnoreLevel(v6);
      StepKeepsExact(v, m, d, v6);
      StepKeepsDenotes(rs, m, d, Grants(v6));
      StepKeepsShape(rs, d, Grants(v6));
      n := RunExact(SteppedView(v, d, v6), Stepped(m, d, Grants(v6)), After(rs, d), deltas[1..], v6);
    }
  }

  // ---- read-only flags ----

  lemma {:induction false} RemovingKeepsFlags(v: View, rules: seq<Rule>, v6: Ipv6Test)
    ensures WellFlagged(v) ==> WellFlagged(Removed(v, rules, v6))
  {
    hide GrantOf;
    if rules != [] {
      RemovingKeepsFlags(v, rules[..|rules| - 1], v6);
    }
  }

  lemma {:induction false} RunKeepsFlags(v: View, deltas: seq<Delta>, v6: Ipv6Test)
    requires WellFlagged(v)
    ensures WellFlagged(Run(v, deltas, v6))
    decreases |deltas|
  {
    if deltas != [] {
      var d := deltas[0];
      AppliedTracks(v, d.add + d.update, v6);
      RemovingKeepsFlags(Applied(v, d.add + d.update, true, v6), d.delete, v6);
      hide WellFlagged;
      RunKeepsFlags(SteppedView(v, d, v6), deltas[1..], v6);
    }
  }

  /** Correctly flagged views with the same access are the same view. */
  lemma FlaggedAlike(v: View, w: View)
    requires WellFlagged(v) && WellFlagged(w)
    ensures SameAccess(v, w) <==> v == w
  {
  }

  /** Any run of incremental calls from a synced state ends with the policies and attachments
      that one full sync on the resulting rules, listed in any order, would give; flags included
      if they were correct to start with. */
  lemma IncrementalRefinesFullSync(v: View, start: seq<Rule>, rs: RuleSet, deltas: seq<Delta>,
                                   w: View, final: seq<Rule>, v6: Ipv6Test)
    requires NoEmpty(v) && Lists(start, rs) && Distinct(rs, Grants(v6)) && LegalRun(rs, deltas, Grants(v6))
    requires NoEmpty(w) && Lists(final, FinalRules(rs, deltas))
    ensures SameAccess(Run(Synced(v, start, true, v6), deltas, v6), Synced(w, final, true, v6))
    ensures WellFlagged(v) && WellFlagged(w) ==>
      Run(Synced(v, start, true, v6), deltas, v6) == Synced(w, final, true, v6)
  {
    hide GrantOf, Exact, Denotes, Distinct, SameAccess, Legal, WellFlagged;
    var v0 := Synced(v, start, true, v6);
    FullSyncSelfStabilises(v, start, v6);
    ListingDenotes(start, rs, Grants(v6));
    var n := RunExact(v0, LastLevel(start, v6), rs, deltas, v6);
    FullSyncSelfStabilises(w, final, v6);
    ListingDenotes(final, FinalRules(rs, deltas), Grants(v6));
    DenotesUnique(FinalRules(rs, deltas), n, LastLevel(final, v6), Grants(v6));
    SameAccessIffSameMap(Run(v0, deltas, v6), Synced(w, final, true, v6), n, n);
    if WellFlagged(v) && WellFlagged(w) {
      RunKeepsFlags(v0, deltas, v6);
      FlaggedAlike(Run(v0, deltas, v6), Synced(w, final, true, v6));
    }
  }

  lemma SameAccessIffSameMap(v: View, w: View, m: Access, n: Access)
    requires Exact(v, m) && Exact(w, n)
    ensures SameAccess(v, w) <==> m == n
  {
    assert v.At(RW) == v.rw && v.At(RO) == v.ro && w.At(RW) == w.rw && w.At(RO) == w.ro;
    if m == n {
      forall l: Level
        ensures v.At(l).Ips() == w.At(l).Ips()
      {
      }
    }
    if SameAccess(v, w) {
      forall l: Level
        ensures v.At(l).Ips() == w.At(l).Ips()
      {
      }
      SameMap(v, w, m, n);
      SameMap(w, v, n, m);
    }
  }

  lemma SameMap(v: View, w: View, m: Access, n: Access)
    requires Exact(v, m) && Exact(w, n) && forall l: Level :: v.At(l).Ips() == w.At(l).Ips()
    ensures forall a | a in m :: a in n && n[a] == m[a]
  {
    forall a | a in m
      ensures a in n && n[a] == m[a]
    {
      assert a in v.At(m[a]).Ips();
    }
  }

  // ---- exactly when one call agrees with a full sync ----

  /** The grants of a listing, in order, for addresses other than the given ones. */
  function Away(rules: seq<Rule>, keys: set<string>, v6: Ipv6Test): seq<Grant>
  {
    if rules == [] then []
    else
      var before := Away(rules[..|rules| - 1], keys, v6);
      match GrantOf(rules[|rules| - 1], v6)
      case None => before
      case Some(g) => if g.key in keys then before else before + [g]
  }

  function OverlayGrants(grants: seq<Grant>): Access
  {
    if grants == [] then map[]
    else OverlayGrants(grants[..|grants| - 1])[grants[|grants| - 1].key := grants[|grants| - 1].value]
  }

  lemma {:induction false} AwayDenotes(rules: seq<Rule>, keys: set<string>, v6: Ipv6Test)
    ensures LastLevel(rules, v6) - keys == OverlayGrants(Away(rules, keys, v6))
  {
    hide GrantOf;
    if rules != [] {
      var front := rules[..|rules| - 1];
      AwayDenotes(front, keys, v6);
      var g := GrantOf(rules[|rules| - 1], v6);
      if g.Some? {
        var m := LastLevel(front, v6);
        if g.value.key in keys {
          assert m[g.value.key := g.value.value] - keys == m - keys;
        } else {
          assert m[g.value.key := g.value.value] - keys == (m - keys)[g.value.key := g.value.value];
          assert (Away(front, keys, v6) + [g.value])[..|Away(front, keys, v6)|] == Away(front, keys, v6);
        }
      }
    }
  }

  /** The addresses a call names. */
  function Called(d: Delta, v6: Ipv6Test): set<string>
  {
    Keys(Grants(v6), d.add + d.update) + Keys(Grants(v6), d.delete)
  }

  /** The new listing has no rule left for a deleted address, and gives each address the call
      applies the level the call gives it last. */
  ghost predicate Consistent(d: Delta, final: seq<Rule>, v6: Ipv6Test)
  {
    && (forall r | r in final :: GrantOf(r, v6).Some? ==> GrantOf(r, v6).value.key !in Keys(Grants(v6), d.delete))
    && (forall a | a in Keys(Grants(v6), d.add + d.update) && a !in Keys(Grants(v6), d.delete) ::
          a in LastLevel(final, v6) && a in LastLevel(d.add + d.update, v6) &&
          LastLevel(final, v6)[a] == LastLevel(d.add + d.update, v6)[a])
  }

  /** A call that turns one listing of rules into another, addresses shared or not, agrees with
      a full sync on the new listing exactly if the new listing is consistent with the call. */
  lemma CallAgreesExactly(v: View, start: seq<Rule>, d: Delta, w: View, final: seq<Rule>, v6: Ipv6Test)
    requires NoEmpty(v) && NoEmpty(w)
    requires Away(start, Called(d, v6), v6) == Away(final, Called(d, v6), v6)
    ensures SameAccess(SteppedView(Synced(v, start, true, v6), d, v6), Synced(w, final, true, v6)) <==> Consistent(d, final, v6)
  {
    var m, n := Stepped(LastLevel(start, v6), d, Grants(v6)), LastLevel(final, v6);
    CallAgreesOnMaps(start, d, final, v6);
    FullSyncSelfStabilises(v, start, v6);
    FullSyncSelfStabilises(w, final, v6);
    hide GrantOf, LastLevel, Exact, SameAccess, Consistent, NoEmpty;
    StepKeepsExact(Synced(v, start, true, v6), LastLevel(start, v6), d, v6);
    SameAccessIffSameMap(SteppedView(Synced(v, start, true, v6), d, v6), Synced(w, final, true, v6), m, n);
  }

  lemma {:induction false} OverlayBeside(m: Access, rules: seq<Rule>, v6: Ipv6Test)
    ensures Overlay(m, rules, Grants(v6)) == m + LastLevel(rules, v6)
  {
    hide GrantOf;
    if rules != [] {
      OverlayBeside(m, rules[..|rules| - 1], v6);
    }
  }

  lemma KeysAreNamed(rules: seq<Rule>, v6: Ipv6Test)
    ensures LastLevel(rules, v6).Keys == Keys(Grants(v6), rules)
  {
    hide GrantOf;
    OverlayNames(map[], rules, Grants(v6));
    forall a
      ensures a in LastLevel(rules, v6) <==> a in Keys(Grants(v6), rules)
    {
      if r :| r in rules && Names(Grants(v6), r, a) {
        assert GrantOf(r, v6).Some? && GrantOf(r, v6).value.key == a;
      }
      if a in Keys(Grants(v6), rules) {
        var r :| r in rules && GrantOf(r, v6).Some? && GrantOf(r, v6).value.key == a;
        assert Names(Grants(v6), r, a);
      }
    }
  }

  lemma CallAgreesOnMaps(start: seq<Rule>, d: Delta, final: seq<Rule>, v6: Ipv6Test)
    requires Away(start, Called(d, v6), v6) == Away(final, Called(d, v6), v6)
    ensures Stepped(LastLevel(start, v6), d, Grants(v6)) == LastLevel(final, v6) <==> Consistent(d, final, v6)
  {
    hide GrantOf, Away, OverlayGrants;
    var au, read := d.add + d.update, Grants(v6);
    var applied, deleted := Keys(read, au), Keys(read, d.delete);
    var s, x, n := LastLevel(start, v6), LastLevel(au, v6), LastLevel(final, v6);
    AwayDenotes(start, Called(d, v6), v6);
    AwayDenotes(final, Called(d, v6), v6);
    OverlayBeside(s, au, v6);
    KeysAreNamed(au, v6);
    KeysAreNamed(final, v6);
    hide LastLevel, Keys;
    var m := Stepped(s, d, read);
    assert m == (s + x) - deleted;
    assert s - (applied + deleted) == n - (applied + deleted);
    UnnamedIffNoKey(final, deleted, v6);
    AgreeOnCalled(s, x, n, deleted);
  }

  lemma UnnamedIffNoKey(final: seq<Rule>, deleted: set<string>, v6: Ipv6Test)
    ensures (forall r | r in final :: GrantOf(r, v6).Some? ==> GrantOf(r, v6).value.key !in deleted) <==>
            Keys(Grants(v6), final) !! deleted
  {
    hide GrantOf;
  }

  lemma AgreeOnCalled(s: Access, x: Access, n: Access, deleted: set<string>)
    requires s - (x.Keys + deleted) == n - (x.Keys + deleted)
    ensures (s + x) - deleted == n <==>
            n.Keys !! deleted && forall a | a in x && a !in deleted :: a in n && n[a] == x[a]
  {
    var m := (s + x) - deleted;
    forall a | a !in x && a !in deleted
      ensures a in m <==> a in n
      ensures a in m ==> m[a] == n[a]
    {
      assert a in s - (x.Keys + deleted) <==> a in n - (x.Keys + deleted);
    }
  }

  // ---- deletions ----

  function Rest(rules: seq<Rule>, deleted: seq<Rule>): seq<Rule>
  {
    if rules == [] then []
    else
      var last := rules[|rules| - 1];
      Rest(rules[..|rules| - 1], deleted) + if last in deleted then [] else [last]
  }

  lemma {:induction false} RestAway(rules: seq<Rule>, deleted: seq<Rule>, keys: set<string>, v6: Ipv6Test)
    requires Keys(Grants(v6), deleted) <= keys
    ensures Away(rules, keys, v6) == Away(Rest(rules, deleted), keys, v6)
  {
    hide GrantOf;
    if rules != [] {
      var front, last := rules[..|rules| - 1], rules[|rules| - 1];
      RestAway(front, deleted, keys, v6);
      if last in deleted {
        assert GrantOf(last, v6).Some? ==> GrantOf(last, v6).value.key in Keys(Grants(v6), deleted);
        assert Rest(rules, deleted) == Rest(front, deleted);
      } else {
        assert (Rest(front, deleted) + [last])[..|Rest(front, deleted)|] == Rest(front, deleted);
      }
    }
  }

  /** Deleting rules agrees with a full sync on the others exactly if none of the others grants
      an address a deleted one grants. */
  lemma DeletionAgreesExactly(v: View, rules: seq<Rule>, deleted: seq<Rule>, w: View, v6: Ipv6Test)
    requires NoEmpty(v) && NoEmpty(w)
    ensures SameAccess(SteppedView(Synced(v, rules, true, v6), Delta([], [], deleted), v6), Synced(w, Rest(rules, deleted), true, v6)) <==>
            forall r | r in Rest(rules, deleted) && GrantOf(r, v6).Some? ::
              forall d | d in deleted :: !Names(Grants(v6), d, GrantOf(r, v6).value.key)
  {
    var d := Delta([], [], deleted);
    var none: seq<Rule> := [];
    assert d.add + d.update == none;
    assert Keys(Grants(v6), none) == {};
    hide GrantOf, Rest, Away;
    RestAway(rules, deleted, Called(d, v6), v6);
    CallAgreesExactly(v, rules, d, w, Rest(rules, deleted), v6);
    forall k
      ensures k in Keys(Grants(v6), deleted) <==> exists x | x in deleted :: Names(Grants(v6), x, k)
    {
      if x :| x in deleted && Names(Grants(v6), x, k) {
        assert GrantOf(x, v6).value.key == k;
      }
    }
  }

  // ---- additions and updates ----

  lemma {:induction false} AwayConcat(a: seq<Rule>, b: seq<Rule>, keys: set<string>, v6: Ipv6Test)
    ensures Away(a + b, keys, v6) == Away(a, keys, v6) + Away(b, keys, v6)
  {
    hide GrantOf;
    if b == [] {
      assert a + b == a;
    } else {
      var front := b[..|b| - 1];
      AwayConcat(a, front, keys, v6);
      assert (a + b)[..|a + b| - 1] == a + front;
    }
  }

  lemma {:induction false} AwayNothing(rules: seq<Rule>, keys: set<string>, v6: Ipv6Test)
    requires Keys(Grants(v6), rules) <= keys
    ensures Away(rules, keys, v6) == []
  {
    hide GrantOf;
    if rules != [] {
      var front, last := rules[..|rules| - 1], rules[|rules| - 1];
      assert last in rules && forall r | r in front :: r in rules;
      assert GrantOf(last, v6).Some? ==> GrantOf(last, v6).value.key in Keys(Grants(v6), rules);
      AwayNothing(front, keys, v6);
    }
  }

  /** Rules added between others, or updated in place of `old` ones for the same addresses, agree
      with a full sync on the new listing exactly if the rules listed after them leave each
      address they share at the level the call gives it last. */
  lemma ApplyingAgreesExactly(v: View, front: seq<Rule>, was: seq<Rule>, now: seq<Rule>, back: seq<Rule>,
                              d: Delta, w: View, v6: Ipv6Test)
    requires NoEmpty(v) && NoEmpty(w)
    requires d.add + d.update == now && d.delete == [] && Keys(Grants(v6), was) <= Keys(Grants(v6), now)
    ensures SameAccess(SteppedView(Synced(v, front + was + back, true, v6), d, v6), Synced(w, front + now + back, true, v6)) <==>
            forall a | a in LastLevel(now, v6) && a in LastLevel(back, v6) :: LastLevel(now, v6)[a] == LastLevel(back, v6)[a]
  {
    var none: seq<Rule> := [];
    assert d.delete == none && Keys(Grants(v6), none) == {};
    var keys := Keys(Grants(v6), now);
    assert Called(d, v6) == keys;
    AwayConcat(front + was, back, keys, v6);
    AwayConcat(front, was, keys, v6);
    AwayConcat(front + now, back, keys, v6);
    AwayConcat(front, now, keys, v6);
    AwayNothing(was, keys, v6);
    AwayNothing(now, keys, v6);
    hide GrantOf, Away;
    CallAgreesExactly(v, front + was + back, d, w, front + now + back, v6);
    LastOfThree(front, now, back, v6);
    KeysAreNamed(now, v6);
  }

  lemma {:induction false} OverlayConcat(m: Access, a: seq<Rule>, b: seq<Rule>, v6: Ipv6Test)
    ensures Overlay(m, a + b, Grants(v6)) == Overlay(Overlay(m, a, Grants(v6)), b, Grants(v6))
  {
    hide GrantOf;
    if b == [] {
      assert a + b == a;
    } else {
      OverlayConcat(m, a, b[..|b| - 1], v6);
      assert (a + b)[..|a + b| - 1] == a + b[..|b| - 1];
    }
  }

  lemma LastOfThree(front: seq<Rule>, now: seq<Rule>, back: seq<Rule>, v6: Ipv6Test)
    ensures LastLevel(front + now + back, v6) == LastLevel(front, v6) + LastLevel(now, v6) + LastLevel(back, v6)
  {
    OverlayConcat(map[], front + now, back, v6);
    OverlayConcat(map[], front, now, v6);
    OverlayBeside(LastLevel(front + now, v6), back, v6);
    OverlayBeside(LastLevel(front, v6), now, v6);
  }

  /** So two rules for one address diverge: deleting one withdraws it for both, where a full
      sync on the remaining rule grants it. */
  lemma SharedAddressDiverges(v6: Ipv6Test)
    requires !v6("10.0.0.1")
    ensures exists r: Rule, s: Rule ::
      && r.id != s.id
      && var start := Synced(View(Absent, Absent), [r, s], true, v6);
         !SameAccess(SteppedView(start, Delta([], [], [s]), v6), Synced(start, [r], true, v6))
  {
    var to, empty := "10.0.0.1", View(Absent, Absent);
    var r, s := Rule("a", "ip", to, "rw"), Rule("b", "ip", to, "rw");
    assert Net.PolicyIp(to) == Some(to);
    assert GrantOf(r, v6) == Some(Binding(to, RW)) && GrantOf(s, v6) == Some(Binding(to, RW));
    hide GrantOf;
    assert [r, s][..1] == [r] && [r][..0] == [];
    assert r.id != s.id && r !in [s];
    assert Rest([r], [s]) == [r];
    assert Rest([r, s], [s]) == [r];
    FullSyncSelfStabilises(empty, [r, s], v6);
    var start := Synced(empty, [r, s], true, v6);
    assert NoEmpty(start) by {
      assert start.At(RW) == start.rw && start.At(RO) == start.ro;
    }
    DeletionAgreesExactly(empty, [r, s], [s], start, v6);
    assert r in [r] && s in [s] && Names(Grants(v6), s, to);
  }
}
