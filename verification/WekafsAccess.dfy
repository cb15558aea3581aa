/** update_access for WEKAFS shares: applying, removing and pruning rules one call at a time. */
module WekafsAccess {
  import opened Results
  import opened Rules
  import opened Cluster
  import opened AccessView
  import opened RuleMaps
  import opened Wekafs
  import Net
  import Text

  /** What any call on behalf of one address does to a share, whatever fails. */
  ghost predicate Moved(st: State, st': State, share: Share, fs: Option<Uid>, ip: string)
  {
    && WellFormed(st')
    && SameExcept(st, st', fs, OwnNames(share))
    && Nudged(ViewOf(st, share, fs).rw, ViewOf(st', share, fs).rw, ip, false)
    && Nudged(ViewOf(st, share, fs).ro, ViewOf(st', share, fs).ro, ip, true)
  }

  /** Calls for any addresses: frame and invariants only. */
  ghost predicate Confined(st: State, st': State, share: Share, fs: Option<Uid>)
  {
    && WellFormed(st')
    && SameExcept(st, st', fs, OwnNames(share))
    && (Flagged(ViewOf(st, share, fs).rw, false) ==> Flagged(ViewOf(st', share, fs).rw, false))
    && (Flagged(ViewOf(st, share, fs).ro, true) ==> Flagged(ViewOf(st', share, fs).ro, true))
  }

  lemma MovedTrans(a: State, b: State, c: State, share: Share, fs: Option<Uid>, ip: string)
    requires Moved(a, b, share, fs, ip) && Moved(b, c, share, fs, ip)
    ensures Moved(a, c, share, fs, ip)
  {
    hide WellFormed, LevelViewOf, PolicyName;
    SameExceptTrans(a, b, c, fs, OwnNames(share));
  }

  lemma MovedConfined(st: State, st': State, share: Share, fs: Option<Uid>, ip: string)
    requires Moved(st, st', share, fs, ip)
    ensures Confined(st, st', share, fs)
  {
    hide WellFormed, LevelViewOf, PolicyName, SameExcept;
  }

  lemma ConfinedTrans(a: State, b: State, c: State, share: Share, fs: Option<Uid>)
    requires Confined(a, b, share, fs) && Confined(b, c, share, fs)
    ensures Confined(a, c, share, fs)
  {
    hide WellFormed, LevelViewOf, PolicyName;
    SameExceptTrans(a, b, c, fs, OwnNames(share));
  }

  lemma ConfinedFs(st: State, st': State, share: Share, fs: Option<Uid>)
    requires Confined(st, st', share, fs)
    ensures WellFormed(st') && st'.filesystems == st.filesystems && st.users <= st'.users
  {
  }

  lemma ConfinedRefl(st: State, share: Share, fs: Option<Uid>)
    requires WellFormed(st)
    ensures Confined(st, st, share, fs)
  {
  }

  /** Addresses other than the one being moved keep their grant. */
  lemma MovedKeepsGrant(st: State, st': State, share: Share, fs: Option<Uid>, ip: string, g: Grant)
    requires Moved(st, st', share, fs, ip) && g.key != ip && Granted(ViewOf(st, share, fs), g)
    ensures Granted(ViewOf(st', share, fs), g)
  {
    hide WellFormed, LevelViewOf, PolicyName, SameExcept;
    var v, v' := ViewOf(st, share, fs), ViewOf(st', share, fs);
    assert g.key in v.At(g.value).ips - {ip};
    assert g.key in v'.At(g.value).Ips() - {ip};
    assert g.key !in v.At(g.value.Other()).Ips() - {ip};
  }

  /** A change confined to one level's policy, as a change of the share. */
  lemma ReachMoved(st: State, st': State, share: Share, fs: Option<Uid>, level: Level, ip: string)
    requires WellFormed(st)
    requires Reach(st, st', fs, PolicyName(share.id, level), ip, level.RO?)
    ensures Moved(st, st', share, fs, ip)
    ensures ViewOf(st', share, fs).At(level.Other()) == ViewOf(st, share, fs).At(level.Other())
    ensures ViewOf(st', share, fs).At(level) == LevelViewOf(st', fs, PolicyName(share.id, level))
  {
    hide WellFormed, LevelViewOf;
    var mine, other := PolicyName(share.id, level), PolicyName(share.id, level.Other());
    assert mine != other by {
      var n := |"manila-" + Text.Take(share.id, 8) + "-"|;
      assert mine[n + 1] == level.Text()[1] && other[n + 1] == level.Other().Text()[1];
    }
    ForeignView(st, st', fs, {mine}, other, fs);
    WidenFrame(st, st', fs, {mine}, OwnNames(share));
  }

  lemma WidenFrame(st: State, st': State, fs: Option<Uid>, names: set<string>, more: set<string>)
    requires SameExcept(st, st', fs, names) && names <= more
    ensures SameExcept(st, st', fs, more)
  {
  }

  /** _policy_set_ip */
  method PolicySetIp(s: Session, share: Share, fs: Option<Uid>, level: Level, ip: string, present: bool)
    returns (r: Outcome<(), Error>)
    requires WellFormed(s.st) && (fs.Some? ==> fs.value in s.st.filesystems)
    modifies s
    ensures s.clock > old(s.clock)
    ensures Moved(old(s.st), s.st, share, fs, ip)
    ensures ViewOf(s.st, share, fs).At(level.Other()) == ViewOf(old(s.st), share, fs).At(level.Other())
    ensures r.Ok? ==> var lv := ViewOf(s.st, share, fs).At(level);
      if present then lv.Present? && ip in lv.ips && (fs.Some? ==> lv.attached) else ip !in lv.Ips()
    ensures !present ==> ViewOf(s.st, share, fs).At(level).Ips() <= ViewOf(old(s.st), share, fs).At(level).Ips()
    ensures s.Reliable(old(s.clock)) ==>
      && r.Ok?
      && var lv := ViewOf(old(s.st), share, fs).At(level);
         ViewOf(s.st, share, fs).At(level) == if present then Put(lv, level, ip, fs.Some?) else Drop(lv, ip)
    ensures !present && fs.Some? && DeletionLost(s, old(s.clock)) ==>
      var lv := ViewOf(old(s.st), share, fs).At(level);
      lv.Present? && lv.ips == {ip} ==> r.Raised? && ViewOf(s.st, share, fs).At(level) == Present({}, lv.readOnly, false)
  {
    hide WellFormed, LevelViewOf, SameExcept, PolicyName, Nudged, DeletionLost;
    var name := PolicyName(share.id, level);
    if present {
      r := PolicyPutIp(s, fs, name, level, ip);
    } else {
      r := PolicyDropIp(s, fs, name, level.RO?, ip);
    }
    ReachMoved(old(s.st), s.st, share, fs, level, ip);
    assert ViewOf(old(s.st), share, fs).At(level) == LevelViewOf(old(s.st), fs, name);
  }

  // ---- single rules ----

  /** _apply_wekafs_rule: into its level's policy, out of the other. */
  method ApplyRule(s: Session, share: Share, fs: Option<Uid>, rule: Rule, ghost v6: Ipv6Test)
    returns (r: Outcome<(), Error>)
    requires WellFormed(s.st) && (fs.Some? ==> fs.value in s.st.filesystems)
    requires Ipv4(rule, v6)
    modifies s
    ensures s.clock >= old(s.clock)
    ensures GrantOf(rule, v6).None? ==> r.Raised? && s.st == old(s.st)
    ensures GrantOf(rule, v6).Some? ==> var g := GrantOf(rule, v6).value;
      && Moved(old(s.st), s.st, share, fs, g.key)
      && (r.Ok? && fs.Some? ==> Granted(ViewOf(s.st, share, fs), g))
    ensures s.Reliable(old(s.clock)) ==>
      && (r.Ok? <==> GrantOf(rule, v6).Some?)
      && ViewOf(s.st, share, fs) == ApplyOne(ViewOf(old(s.st), share, fs), rule, fs.Some?, v6)
  {
    hide WellFormed, LevelViewOf, PolicyName;
    var weka := Net.PolicyIp(rule.to);
    if weka.None? {
      return Raised(BadAddress);
    }
    var ip, level := weka.value, LevelOf(rule);
    assert GrantOf(rule, v6) == Some(Binding(ip, level));
    hide SameExcept, Nudged, GrantOf;
    ghost var v0 := ViewOf(s.st, share, fs);
    r := PolicySetIp(s, share, fs, level, ip, true);
    if r.Raised? {
      return;
    }
    ghost var st1 := s.st;
    MovedKeepsFs(old(s.st), st1, share, fs, ip);
    r := PolicySetIp(s, share, fs, level.Other(), ip, false);
    MovedTrans(old(s.st), st1, s.st, share, fs, ip);
    assert level.Other().Other() == level;
    if s.Reliable(old(s.clock)) {
      WithAt(v0, ViewOf(st1, share, fs), level);
      WithAt(ViewOf(st1, share, fs), ViewOf(s.st, share, fs), level.Other());
    }
  }

  lemma WithAt(v: View, w: View, level: Level)
    requires v.At(level.Other()) == w.At(level.Other())
    ensures w == v.With(level, w.At(level))
  {
  }

  lemma MovedKeepsFs(st: State, st': State, share: Share, fs: Option<Uid>, ip: string)
    requires Moved(st, st', share, fs, ip)
    ensures WellFormed(st') && st'.filesystems == st.filesystems
  {
  }

  /** _remove_wekafs_rule: out of both policies. */
  method RemoveRule(s: Session, share: Share, fs: Option<Uid>, rule: Rule, v6: Ipv6Test)
    returns (r: Outcome<(), Error>)
    requires WellFormed(s.st) && (fs.Some? ==> fs.value in s.st.filesystems)
    modifies s
    ensures s.clock >= old(s.clock)
    ensures GrantOf(rule, v6).None? ==> s.st == old(s.st)
    ensures GrantOf(rule, v6).Some? ==> Moved(old(s.st), s.st, share, fs, GrantOf(rule, v6).value.key)
    ensures s.Reliable(old(s.clock)) ==>
      ViewOf(s.st, share, fs) == RemoveOne(ViewOf(old(s.st), share, fs), rule, v6)
  {
    hide WellFormed, LevelViewOf, PolicyName;
    if rule.kind != "ip" || v6(rule.to) {
      return Ok(());
    }
    var weka := Net.PolicyIp(rule.to);
    if weka.None? {
      return Raised(BadAddress);
    }
    var ip := weka.value;
    assert GrantOf(rule, v6) == Some(Binding(ip, LevelOf(rule)));
    hide SameExcept, Nudged, GrantOf;
    r := PolicySetIp(s, share, fs, RW, ip, false);
    if r.Raised? {
      return;
    }
    ghost var st1 := s.st;
    MovedKeepsFs(old(s.st), st1, share, fs, ip);
    r := PolicySetIp(s, share, fs, RO, ip, false);
    MovedTrans(old(s.st), st1, s.st, share, fs, ip);
  }

  // ---- pruning ----

  /** The addresses of `expected` at one level; None is the ValueError of a malformed rule. */
  method ExpectedIps(rules: seq<Rule>, level: Level, v6: Ipv6Test) returns (r: Option<set<string>>)
    ensures r.None? <==> exists x | x in rules :: Malformed(x, v6)
    ensures r.Some? ==> r.value == Expected(rules, level, v6)
  {
    hide Net.PolicyIp;
    var keep := {};
    for i := 0 to |rules|
      invariant keep == Expected(rules[..i], level, v6)
      invariant forall x | x in rules[..i] :: !Malformed(x, v6)
    {
      var rule := rules[i];
      ExpectedOfOneMore(rules, i, level, v6);
      if rule.kind == "ip" && !v6(rule.to) {
        var ip := Net.PolicyIp(rule.to);
        if ip.None? {
          assert Malformed(rule, v6);
          return None;
        }
        if LevelOf(rule) == level {
          keep := keep + {ip.value};
        }
      }
    }
    assert rules[..|rules|] == rules;
    return Some(keep);
  }

  lemma ExpectedOfOneMore(rules: seq<Rule>, i: nat, level: Level, v6: Ipv6Test)
    requires i < |rules|
    ensures rules[..i + 1] == rules[..i] + [rules[i]]
    ensures Expected(rules[..i + 1], level, v6) == Expected(rules[..i], level, v6) +
            match GrantOf(rules[i], v6) {
              case None => {}
              case Some(g) => if g.value == level then {g.key} else {}
            }
  {
    hide GrantOf;
    assert rules[..i + 1] == rules[..i] + [rules[i]];
    assert forall r :: r in rules[..i + 1] <==> r in rules[..i] || r == rules[i];
  }

  /** One level of _prune_wekafs_rules: drops every listed address no rule backs. */
  method PruneLevel(s: Session, share: Share, fs: Option<Uid>, level: Level, keep: set<string>)
    returns (r: Outcome<(), Error>)
    requires WellFormed(s.st) && (fs.Some? ==> fs.value in s.st.filesystems)
    modifies s
    ensures s.clock >= old(s.clock)
    ensures Confined(old(s.st), s.st, share, fs)
    ensures forall g: Grant | g.value == level ==> g.key in keep ::
      Granted(ViewOf(old(s.st), share, fs), g) ==> Granted(ViewOf(s.st, share, fs), g)
    ensures s.Reliable(old(s.clock)) ==>
      && r.Ok?
      && ViewOf(s.st, share, fs) == ViewOf(old(s.st), share, fs).With(level, Kept(ViewOf(old(s.st), share, fs).At(level), keep))
  {
    hide WellFormed, LevelViewOf, PolicyName, SameExcept, FindPolicy, Nudged;
    ConfinedRefl(s.st, share, fs);
    var name := PolicyName(share.id, level);
    var pol :- GetPolicyByName(s, name);
    ghost var st0 := s.st;
    ghost var lv := ViewOf(st0, share, fs).At(level);
    ViewOfFound(st0, fs, name);
    WithAt(ViewOf(st0, share, fs), ViewOf(st0, share, fs), level);
    if pol.None? {
      return Ok(());
    }
    var ips := pol.value.1.ips;
    ghost var gone: set<string> := {};
    for i := 0 to |ips|
      invariant s.clock >= old(s.clock)
      invariant Confined(st0, s.st, share, fs)
      invariant gone == set x | x in ips[..i] && x !in keep
      invariant forall g: Grant | g.value == level ==> g.key in keep ::
        Granted(ViewOf(st0, share, fs), g) ==> Granted(ViewOf(s.st, share, fs), g)
      invariant s.Reliable(old(s.clock)) ==>
        && ViewOf(s.st, share, fs).At(level.Other()) == ViewOf(st0, share, fs).At(level.Other())
        && ViewOf(s.st, share, fs).At(level) == Shrunk(lv, gone)
    {
      var ip := ips[i];
      assert ips[..i + 1] == ips[..i] + [ip];
      if ip !in keep {
        ghost var st1 := s.st;
        ConfinedFs(st0, st1, share, fs);
        var dropped := PolicySetIp(s, share, fs, level, ip, false);
        MovedConfined(st1, s.st, share, fs, ip);
        ConfinedTrans(st0, st1, s.st, share, fs);
        DropKeepsGrants(st1, s.st, share, fs, level, ip, keep);
        DropShrinks(lv, gone, ip);
        gone := gone + {ip};
      }
    }
    assert ips[..|ips|] == ips;
    ShrunkIsKept(lv, ips, keep);
    if s.Reliable(old(s.clock)) {
      WithAt(ViewOf(st0, share, fs), ViewOf(s.st, share, fs), level);
    }
    return Ok(());
  }

  /** A level after some of its addresses have been dropped one by one. */
  function Shrunk(lv: LevelView, gone: set<string>): LevelView
  {
    if lv.Absent? || gone == {} then lv else if lv.ips - gone == {} then Absent else lv.(ips := lv.ips - gone)
  }

  lemma DropShrinks(lv: LevelView, gone: set<string>, ip: string)
    ensures Drop(Shrunk(lv, gone), ip) == Shrunk(lv, gone + {ip})
  {
    if lv.Present? {
      assert lv.ips - gone - {ip} == lv.ips - (gone + {ip});
    }
  }

  lemma ShrunkIsKept(lv: LevelView, ips: seq<string>, keep: set<string>)
    requires lv.Present? && forall x :: x in lv.ips <==> x in ips
    ensures Shrunk(lv, set x | x in ips && x !in keep) == Kept(lv, keep)
  {
    var gone := set x | x in ips && x !in keep;
    assert lv.ips - gone == lv.ips * keep;
    assert gone == {} <==> lv.ips <= keep by {
      if gone == {} {
        forall x | x in lv.ips ensures x in keep {
          assert x !in gone;
        }
      }
    }
  }

  /** Dropping an address at a level that does not keep it leaves every kept grant. */
  lemma DropKeepsGrants(st: State, st': State, share: Share, fs: Option<Uid>, level: Level, ip: string, keep: set<string>)
    requires Moved(st, st', share, fs, ip) && ip !in keep
    requires ViewOf(st', share, fs).At(level.Other()) == ViewOf(st, share, fs).At(level.Other())
    requires ViewOf(st', share, fs).At(level).Ips() <= ViewOf(st, share, fs).At(level).Ips()
    ensures forall g: Grant | g.value == level ==> g.key in keep ::
      Granted(ViewOf(st, share, fs), g) ==> Granted(ViewOf(st', share, fs), g)
  {
    hide WellFormed, LevelViewOf, PolicyName, SameExcept;
    forall g: Grant | (g.value == level ==> g.key in keep) && Granted(ViewOf(st, share, fs), g)
      ensures Granted(ViewOf(st', share, fs), g)
    {
      if g.key != ip {
        MovedKeepsGrant(st, st', share, fs, ip, g);
      }
    }
  }
}
