/** Shared security-policy groups: named policies created once per organization and attached
    to every share whose type asks for them. */
module WekafsGroups {
  import opened Results
  import opened Rules
  import opened Cluster
  import opened AccessView
  import opened Wekafs
  import opened WekafsNamespaces
  import opened WekafsPromises
  import opened PolicyGroups
  import Text

  /** One level of a group as a share sees it afterwards: attached, created if it was missing,
      never refreshed if it was there. */
  function Joined(lv: LevelView, ips: seq<string>, level: Level): LevelView
  {
    if ips == [] then lv
    else if lv.Absent? then Present((set ip | ip in ips), level.RO?, true)
    else lv.(attached := true)
  }

  /** What a failure on the way may leave: nothing, or a new policy that is not attached yet. */
  predicate Partly(lv: LevelView, lv': LevelView, ips: seq<string>, level: Level)
  {
    lv' == lv || lv' == Joined(lv, ips, level) || (lv.Absent? && ips != [] && lv' == Joined(lv, ips, level).(attached := false))
  }

  /** At most created or attached, whatever fails; in force on return. */
  ghost predicate Ensured(st: State, st': State, fs: Uid, group: string, level: Level, ips: seq<string>, ok: bool)
  {
    var lv, lv' := LevelViewOf(st, Some(fs), GroupPolicyName(group, level)), LevelViewOf(st', Some(fs), GroupPolicyName(group, level));
    Partly(lv, lv', ips, level) && (ok ==> lv' == Joined(lv, ips, level))
  }

  /** In the cluster's terms, for a level that has addresses: the policy of the name is there and
      attached; it is as it was, or it is new, with these addresses and this flag. */
  ghost predicate InForceAs(st: State, st': State, fs: Uid, name: string, ips: seq<string>, readOnly: bool)
  {
    exists u :: u in st'.policies && st'.policies[u].name == name && (fs, u) in st'.attached &&
      (forall w | w in st.policies && st.policies[w].name == name :: SameAs(st.policies[w], st'.policies[u])) &&
      ((forall w | w in st.policies :: st.policies[w].name != name) ==> SameAs(Policy(name, ips, readOnly), st'.policies[u]))
  }

  /** Both levels that the option gives the group addresses for are in force. */
  ghost predicate GroupInForce(st: State, st': State, fs: Uid, group: string, groups: Groups)
  {
    group in groups ==>
      && (RW in groups[group] && groups[group][RW] != [] ==>
            InForceAs(st, st', fs, "manila-grp-" + group + "-rw", groups[group][RW], false))
      && (RO in groups[group] && groups[group][RO] != [] ==>
            InForceAs(st, st', fs, "manila-grp-" + group + "-ro", groups[group][RO], true))
  }

  /** Every policy is as it was, but for those of the group that are new. */
  ghost predicate OnlyAdded(st: State, st': State, group: Option<string>)
  {
    && (forall u | u in st.policies :: Has(st', st.policies[u]))
    && (forall w | w in st'.policies ::
          || Has(st, st'.policies[w])
          || (group.Some? && st'.policies[w].name in {"manila-grp-" + group.value + "-rw", "manila-grp-" + group.value + "-ro"}))
  }

  /** One level of _ensure_group_policies. */
  method EnsureLevel(s: Session, fs: Uid, group: string, level: Level, ips: seq<string>) returns (r: Outcome<(), Error>)
    requires WellFormed(s.st) && fs in s.st.filesystems
    modifies s
    ensures s.clock >= old(s.clock)
    ensures WellFormed(s.st) && SameExcept(old(s.st), s.st, Some(fs), {GroupPolicyName(group, level)})
    ensures Ensured(old(s.st), s.st, fs, group, level, ips, r.Ok?)
    ensures s.Reliable(old(s.clock)) ==> r.Ok?
  {
    hide Serve, WellFormed, LevelViewOf, SameExcept, FindPolicy, Repeat, WithPolicy, GroupPolicyName, Session.Ends,
      Session.FirstReplyLost, Session.Unseen, Session.AnsweredFrom;
    var name, readOnly := GroupPolicyName(group, level), level.RO?;
    SameExceptRefl(s.st, Some(fs), {name});
    if ips == [] {
      return Ok(());
    }
    var pol :- GetPolicyByName(s, name);
    ghost var st0 := s.st;
    ViewOfFound(st0, Some(fs), name);
    var uid: Uid;
    match pol {
      case None =>
        CreateServed(st0, name, ips, readOnly);
        WithPolicyView(st0, Some(fs), Policy(name, ips, readOnly));
        var a, _ := s.Call(CreatePolicy(name, ips, readOnly));
        if a.Refused? {
          return Raised(a.error);
        }
        uid := a.uid;
      case Some((u, _)) =>
        uid := u;
    }
    ghost var st1 := s.st;
    SameExceptFs(st0, st1, Some(fs), {name});
    ViewOfFound(st1, Some(fs), name);
    AttachEffect(st1, fs, name, uid, "", readOnly);
    ReachFrame(st1, Serve(st1, Attach(fs, uid)).0, Some(fs), name, "", readOnly);
    var a, _ := s.Call(Attach(fs, uid));
    SameExceptRefl(st1, Some(fs), {name});
    SameExceptTrans(st0, st1, s.st, Some(fs), {name});
    if a.Refused? && !IsAlreadyExists(a.error) && !IsAlreadyAttached(a.error) {
      return Raised(a.error);
    }
    return Ok(());
  }

  lemma SameExceptFs(st: State, st': State, fs: Option<Uid>, names: set<string>)
    requires SameExcept(st, st', fs, names)
    ensures st'.filesystems == st.filesystems
  {
  }

  lemma ReachFrame(st: State, st': State, fs: Option<Uid>, name: string, ip: string, readOnly: bool)
    requires Reach(st, st', fs, name, ip, readOnly)
    ensures WellFormed(st') && SameExcept(st, st', fs, {name})
  {
  }

  lemma LevelsApart(group: string)
    ensures GroupPolicyName(group, RW) != GroupPolicyName(group, RO)
  {
    var a, b := GroupPolicyName(group, RW), GroupPolicyName(group, RO);
    var n := |"manila-grp-" + group + "-"|;
    assert a[n + 1] == 'w' && b[n + 1] == 'o';
  }

  function NamesOf(group: string): set<string>
  {
    {GroupPolicyName(group, RW), GroupPolicyName(group, RO)}
  }

  /** _ensure_group_policies. `group` is what the share type names, `groups` the parsed option. */
  method EnsureGroupPolicies(s: Session, fs: Uid, group: Option<string>, groups: Groups) returns (r: Outcome<(), Error>)
    requires WellFormed(s.st) && fs in s.st.filesystems
    modifies s
    ensures WellFormed(s.st)
    // Whatever fails, every share's own policies are as before, for every filesystem.
    ensures forall share: Share, f: Option<Uid> | Prefix8(Text.Take(share.id, 8)) :: ViewOf(s.st, share, f) == ViewOf(old(s.st), share, f)
    ensures group.None? || LevelsOf(groups, group.value) == map[] ==> r.Ok? && s.st == old(s.st)
    ensures group.Some? ==>
      && Ensured(old(s.st), s.st, fs, group.value, RW, IpsOf(LevelsOf(groups, group.value), RW), r.Ok?)
      && Ensured(old(s.st), s.st, fs, group.value, RO, IpsOf(LevelsOf(groups, group.value), RO), r.Ok?)
    ensures s.Reliable(old(s.clock)) ==> r.Ok?
    // In full: on return both levels that the option gives addresses for are in force, and whatever
    // fails every policy of another name is as it was.
    ensures r.Ok? && group.Some? ==> GroupInForce(old(s.st), s.st, fs, group.value, groups)
    ensures OnlyAdded(old(s.st), s.st, group)
  {
    hide Serve, WellFormed, LevelViewOf, SameExcept, FindPolicy, Repeat, GroupPolicyName, ViewOf, GroupInForce, OnlyAdded, Ensured;
    ghost var st0 := s.st;
    NothingAdded(st0, fs, group, groups);
    if group.None? {
      return Ok(());
    }
    ghost var names := NamesOf(group.value);
    SameExceptRefl(st0, Some(fs), names);
    var profile := LevelsOf(groups, group.value);
    if profile == map[] {
      return Ok(());
    }
    LevelsApart(group.value);
    r := EnsureLevel(s, fs, group.value, RW, IpsOf(profile, RW));
    ghost var st1 := s.st;
    SameExceptFs(st0, st1, Some(fs), {GroupPolicyName(group.value, RW)});
    OtherLevelKept(st0, st1, fs, GroupPolicyName(group.value, RW), GroupPolicyName(group.value, RO), names);
    SharesKept(st0, st1, fs, group.value);
    EnsuredNothing(st0, st1, fs, group.value, profile);
    GroupInFull(st0, st1, fs, group.value, groups, false);
    if r.Raised? {
      return;
    }
    r := EnsureLevel(s, fs, group.value, RO, IpsOf(profile, RO));
    OtherLevelKept(st1, s.st, fs, GroupPolicyName(group.value, RO), GroupPolicyName(group.value, RW), names);
    SameExceptTrans(st0, st1, s.st, Some(fs), names);
    SharesKept(st0, s.st, fs, group.value);
    EnsuredApart(st0, st1, s.st, fs, group.value, profile, r.Ok?);
    GroupInFull(st0, s.st, fs, group.value, groups, r.Ok?);
  }

  lemma NothingAdded(st: State, fs: Uid, group: Option<string>, groups: Groups)
    ensures OnlyAdded(st, st, group)
    ensures group.Some? && LevelsOf(groups, group.value) == map[] ==>
      && GroupInForce(st, st, fs, group.value, groups)
      && Ensured(st, st, fs, group.value, RW, [], true) && Ensured(st, st, fs, group.value, RO, [], true)
      && IpsOf(LevelsOf(groups, group.value), RW) == [] == IpsOf(LevelsOf(groups, group.value), RO)
  {
    hide InForceAs, Has, LevelViewOf, GroupPolicyName;
    forall u | u in st.policies
      ensures Has(st, st.policies[u])
    {
      HasOwn(st, u);
    }
  }

  lemma EnsuredNothing(st: State, st': State, fs: Uid, group: string, profile: Levels)
    requires LevelViewOf(st', Some(fs), GroupPolicyName(group, RO)) == LevelViewOf(st, Some(fs), GroupPolicyName(group, RO))
    ensures Ensured(st, st', fs, group, RO, IpsOf(profile, RO), false)
    ensures Ensured(st, st', fs, group, RW, IpsOf(profile, RW), true) ==> Ensured(st, st', fs, group, RW, IpsOf(profile, RW), false)
  {
    hide LevelViewOf, GroupPolicyName, IpsOf;
  }

  lemma EnsuredApart(st: State, mid: State, st': State, fs: Uid, group: string, profile: Levels, ok: bool)
    requires LevelViewOf(mid, Some(fs), GroupPolicyName(group, RO)) == LevelViewOf(st, Some(fs), GroupPolicyName(group, RO))
    requires LevelViewOf(st', Some(fs), GroupPolicyName(group, RW)) == LevelViewOf(mid, Some(fs), GroupPolicyName(group, RW))
    requires Ensured(st, mid, fs, group, RW, IpsOf(profile, RW), true) && Ensured(mid, st', fs, group, RO, IpsOf(profile, RO), ok)
    ensures Ensured(st, st', fs, group, RW, IpsOf(profile, RW), ok) && Ensured(st, st', fs, group, RO, IpsOf(profile, RO), ok)
  {
    hide LevelViewOf, GroupPolicyName, IpsOf;
  }

  // ---- in the cluster's terms ----

  lemma LevelInFull(st: State, st': State, fs: Uid, group: string, level: Level, name: string, ips: seq<string>, ok: bool)
    requires WellFormed(st) && WellFormed(st') && Ensured(st, st', fs, group, level, ips, ok) && name == GroupPolicyName(group, level)
    ensures ok && ips != [] ==> InForceAs(st, st', fs, name, ips, level.RO?)
    ensures forall u | u in st.policies && st.policies[u].name == name :: Has(st', st.policies[u])
  {
    LevelInPolicy(st, Some(fs), name);
    LevelInPolicy(st', Some(fs), name);
    hide WellFormed, LevelViewOf, GroupPolicyName, InPolicy;
    forall u, w | u in st.policies && st.policies[u].name == name && w in st'.policies && st'.policies[w].name == name
      ensures SameAs(st.policies[u], st'.policies[w])
    {
      var lv, lv' := LevelViewOf(st, Some(fs), name), LevelViewOf(st', Some(fs), name);
      assert lv.Present? && lv'.ips == lv.ips && lv'.readOnly == lv.readOnly;
      assert forall x :: x in lv.ips <==> x in st.policies[u].ips;
      assert forall x :: x in lv'.ips <==> x in st'.policies[w].ips;
    }
    if ok && ips != [] {
      var w :| w in st'.policies && st'.policies[w].name == name;
      if forall u | u in st.policies :: st.policies[u].name != name {
        assert forall x :: x in LevelViewOf(st', Some(fs), name).ips <==> x in st'.policies[w].ips;
        assert SameAs(Policy(name, ips, level.RO?), st'.policies[w]);
      }
    }
  }

  lemma NamesInFull(group: string)
    ensures GroupPolicyName(group, RW) == "manila-grp-" + group + "-rw" && GroupPolicyName(group, RO) == "manila-grp-" + group + "-ro"
  {
    assert "-" + "rw" == "-rw" && "-" + "ro" == "-ro";
    assert GroupPolicyName(group, RW) == "manila-grp-" + group + ("-" + "rw");
    assert GroupPolicyName(group, RO) == "manila-grp-" + group + ("-" + "ro");
  }

  lemma GroupInFull(st: State, st': State, fs: Uid, group: string, groups: Groups, ok: bool)
    requires WellFormed(st) && WellFormed(st') && SameExcept(st, st', Some(fs), NamesOf(group))
    requires Ensured(st, st', fs, group, RW, IpsOf(LevelsOf(groups, group), RW), ok)
    requires Ensured(st, st', fs, group, RO, IpsOf(LevelsOf(groups, group), RO), ok)
    ensures ok ==> GroupInForce(st, st', fs, group, groups)
    ensures OnlyAdded(st, st', Some(group))
  {
    NamesInFull(group);
    LevelInFull(st, st', fs, group, RW, GroupPolicyName(group, RW), IpsOf(LevelsOf(groups, group), RW), ok);
    LevelInFull(st, st', fs, group, RO, GroupPolicyName(group, RO), IpsOf(LevelsOf(groups, group), RO), ok);
    hide WellFormed, Ensured, InForceAs, Has, LevelViewOf, GroupPolicyName;
    forall u | u in st.policies && st.policies[u].name !in NamesOf(group)
      ensures Has(st', st.policies[u])
    {
      HasOwn(st', u);
    }
    forall w | w in st'.policies && st'.policies[w].name !in NamesOf(group)
      ensures Has(st, st'.policies[w])
    {
      HasOwn(st, w);
    }
  }

  lemma OtherLevelKept(st: State, st': State, fs: Uid, mine: string, other: string, names: set<string>)
    requires WellFormed(st) && WellFormed(st') && SameExcept(st, st', Some(fs), {mine}) && mine != other && mine in names
    ensures LevelViewOf(st', Some(fs), other) == LevelViewOf(st, Some(fs), other)
    ensures SameExcept(st, st', Some(fs), names)
  {
    hide WellFormed, LevelViewOf;
    ForeignView(st, st', Some(fs), {mine}, other, Some(fs));
  }

  /** Group names are nobody's share names, so no share's view moves. */
  lemma SharesKept(st: State, st': State, fs: Uid, group: string)
    requires WellFormed(st) && WellFormed(st') && SameExcept(st, st', Some(fs), NamesOf(group))
    ensures forall share: Share, f: Option<Uid> | Prefix8(Text.Take(share.id, 8)) :: ViewOf(st', share, f) == ViewOf(st, share, f)
  {
    hide WellFormed, LevelViewOf, SameExcept, PolicyName, GroupPolicyName, Prefix8;
    forall share: Share, f: Option<Uid> | Prefix8(Text.Take(share.id, 8))
      ensures ViewOf(st', share, f) == ViewOf(st, share, f)
    {
      forall l: Level
        ensures PolicyName(share.id, l) !in NamesOf(group)
      {
        PolicyNameNotGroup(share.id, l, group, RW);
        PolicyNameNotGroup(share.id, l, group, RO);
      }
      ForeignView(st, st', Some(fs), NamesOf(group), PolicyName(share.id, RW), f);
      ForeignView(st, st', Some(fs), NamesOf(group), PolicyName(share.id, RO), f);
    }
  }
}
