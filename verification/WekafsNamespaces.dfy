/** Share deletion, and the frame of every WEKAFS operation: other shares' policies and
    shared group policies are never touched. */
module WekafsNamespaces {
  import opened Results
  import opened Rules
  import opened Cluster
  import opened Wekafs
  import opened WekafsAccess
  import opened WekafsPromises
  import Text

  /** Policies of any other name keep their contents, and their attachments to every
      filesystem but `gone`. */
  ghost predicate Bystanders(st: State, st': State, share: Share, gone: Option<Uid>)
  {
    && WellFormed(st) && WellFormed(st')
    && forall name, fs: Option<Uid> | name !in OwnNames(share) && (fs.None? || fs != gone) ::
         LevelViewOf(st', fs, name) == LevelViewOf(st, fs, name)
  }

  lemma ConfinedSparesBystanders(st: State, st': State, share: Share, fs: Option<Uid>)
    requires WellFormed(st) && Confined(st, st', share, fs)
    ensures Bystanders(st, st', share, None)
  {
    hide WellFormed, LevelViewOf, PolicyName, SameExcept;
    forall name, other: Option<Uid> | name !in OwnNames(share)
      ensures LevelViewOf(st', other, name) == LevelViewOf(st, other, name)
    {
      ForeignView(st, st', fs, OwnNames(share), name, other);
    }
  }

  /** Removing requests on a share's own policy stay within its frame. */
  lemma RemovalFrame(st: State, f: Uid, name: string, u: Uid)
    requires WellFormed(st) && FindPolicy(st, name) == Some(u)
    ensures SameExcept(st, Serve(st, Detach(f, u)).0, Some(f), {name})
    ensures FindPolicy(Serve(st, Detach(f, u)).0, name) == Some(u)
    ensures SameExcept(st, Serve(st, DeletePolicy(u)).0, Some(f), {name})
    ensures FindPolicy(Serve(st, DeletePolicy(u)).0, name).None?
    ensures Serve(st, DeletePolicy(u)).1 == Done
  {
    ServeWellFormed(st, Detach(f, u));
    DetachFrame(st, f, name, u);
    DeletionFrame(st, f, name, u);
    hide Serve, WellFormed, SameExcept;
    FindIs(Serve(st, Detach(f, u)).0, name, u);
  }

  lemma DetachFrame(st: State, f: Uid, name: string, u: Uid)
    requires FindPolicy(st, name) == Some(u)
    ensures SameExcept(st, Serve(st, Detach(f, u)).0, Some(f), {name})
    ensures Serve(st, Detach(f, u)).0.policies == st.policies
  {
  }

  lemma DeletionFrame(st: State, f: Uid, name: string, u: Uid)
    requires WellFormed(st) && FindPolicy(st, name) == Some(u)
    ensures SameExcept(st, Serve(st, DeletePolicy(u)).0, Some(f), {name})
    ensures FindPolicy(Serve(st, DeletePolicy(u)).0, name).None?
    ensures Serve(st, DeletePolicy(u)).1 == Done
  {
  }

  /** One level of _cleanup_wekafs_policies; every failure is swallowed. */
  method CleanupLevel(s: Session, share: Share, fs: Uid, level: Level)
    requires WellFormed(s.st)
    modifies s
    ensures s.clock > old(s.clock)
    ensures WellFormed(s.st) && SameExcept(old(s.st), s.st, Some(fs), {PolicyName(share.id, level)})
    ensures s.Reliable(old(s.clock)) ==> FindPolicy(s.st, PolicyName(share.id, level)).None?
  {
    hide Serve, WellFormed, PolicyName, FindPolicy, Repeat, SameExcept, Session.Ends, Session.FirstReplyLost,
      Session.Unseen, Session.AnsweredFrom;
    var name := PolicyName(share.id, level);
    ghost var st0 := s.st;
    SameExceptRefl(st0, Some(fs), {name});
    var pol := GetPolicyByName(s, name);
    if pol.Raised? || pol.value.None? {
      return;
    }
    var uid := pol.value.value.0;
    RemovalFrame(st0, fs, name, uid);
    var a, _ := s.Call(Detach(fs, uid));
    ghost var st1 := s.st;
    RemovalFrame(st1, fs, name, uid);
    SameExceptRefl(st1, Some(fs), {name});
    var b, _ := s.Call(DeletePolicy(uid));
    SameExceptTrans(st0, st1, s.st, Some(fs), {name});
  }

  lemma SameExceptRefl(st: State, fs: Option<Uid>, names: set<string>)
    ensures SameExcept(st, st, fs, names)
  {
  }

  /** delete_share for a WEKAFS share; `unmounted` is whether the host let go of the mount. */
  method DeleteShare(s: Session, share: Share, unmounted: bool) returns (r: Outcome<(), Error>)
    requires WellFormed(s.st)
    modifies s
    ensures Bystanders(old(s.st), s.st, share, FindFs(old(s.st), share.fsName))
    ensures r.Ok? ==> FindFs(s.st, share.fsName).None?
    ensures s.Reliable(old(s.clock)) ==>
      && (r.Ok? <==> unmounted || FindFs(old(s.st), share.fsName).None?)
      && (FindFs(old(s.st), share.fsName).Some? ==>
            forall l: Level :: FindPolicy(s.st, PolicyName(share.id, l)).None?)
    // In the cluster's terms: policies of other names stay; with nothing lost the share's own two
    // are gone, and its filesystem with them if the host let go of the mount.
    ensures OthersStay(old(s.st), s.st, share, FindFs(old(s.st), share.fsName))
    ensures r.Ok? ==> !HasFs(s.st, share)
    ensures s.Reliable(old(s.clock)) && HasFs(old(s.st), share) ==>
      && (forall u | u in s.st.policies :: s.st.policies[u].name !in {OwnPolicy(share, "-rw"), OwnPolicy(share, "-ro")})
      && (HasFs(s.st, share) <==> !unmounted)
  {
    hide WellFormed, LevelViewOf, PolicyName, SameExcept, FindPolicy, Repeat, Serve, Session.Ends,
      Session.FirstReplyLost, Session.Unseen, Session.AnsweredFrom;
    ghost var st0 := s.st;
    BystandersRefl(st0, share, FindFs(st0, share.fsName));
    BystandersInFull(st0, st0, share, FindFs(st0, share.fsName));
    var fs :- GetFilesystemByName(s, share.fsName);
    if fs.None? {
      return Ok(());
    }
    CleanupLevel(s, share, fs.value, RW);
    ghost var st1 := s.st;
    CleanupLevel(s, share, fs.value, RO);
    ghost var st2 := s.st;
    CleanupSparesBystanders(st0, st1, st2, share, fs.value);
    FsIs(st2, share.fsName, fs.value);
    BothLevels(st2, share);
    BystandersInFull(st0, st2, share, fs);
    if !unmounted {
      return Raised(CommandFailed);
    }
    FsDeletionSparesPolicies(st2, fs.value, share.fsName);
    var a, _ := s.Call(DeleteFilesystem(fs.value));
    DeletionSparesBystanders(st0, st2, s.st, share, fs.value);
    BystandersInFull(st0, s.st, share, fs);
    if a.Refused? && !a.error.NotFound? {
      return Raised(a.error);
    }
    return Ok(());
  }

  lemma BystandersInFull(st: State, st': State, share: Share, gone: Option<Uid>)
    requires Bystanders(st, st', share, gone)
    ensures OthersStay(st, st', share, gone)
    ensures HasFs(st', share) <==> FindFs(st', share.fsName).Some?
    ensures (forall l: Level :: FindPolicy(st', PolicyName(share.id, l)).None?) ==>
      forall u | u in st'.policies :: st'.policies[u].name !in {OwnPolicy(share, "-rw"), OwnPolicy(share, "-ro")}
  {
    OwnGone(st', share);
    OwnNamesInFull(share);
    assert OwnNames(share) == {OwnPolicy(share, "-rw"), OwnPolicy(share, "-ro")};
    OutsideStays(st, st', share, gone);
  }

  lemma OutsideStays(st: State, st': State, share: Share, gone: Option<Uid>)
    requires Bystanders(st, st', share, gone)
    ensures StayOutside(st, st', OwnNames(share), gone)
  {
    hide WellFormed, LevelViewOf, OwnNames, Has, Attaches, Bystanders;
    BystandersWellFormed(st, st', share, gone);
    OtherPoliciesStay(st, st', share, gone);
    OtherPoliciesStay(st', st, share, gone);
    forall f: Uid, name: string | name !in OwnNames(share) && Some(f) != gone
      ensures Attaches(st', f, name) <==> Attaches(st, f, name)
    {
      AttachmentStays(st, st', share, gone, f, name);
    }
  }

  lemma OwnGone(st: State, share: Share)
    ensures HasFs(st, share) <==> FindFs(st, share.fsName).Some?
    ensures (forall l: Level :: FindPolicy(st, PolicyName(share.id, l)).None?) ==>
      forall u | u in st.policies :: st.policies[u].name !in {OwnPolicy(share, "-rw"), OwnPolicy(share, "-ro")}
  {
    OwnNamesInFull(share);
    BothLevels(st, share);
    hide PolicyName, OwnPolicy;
  }

  lemma BystandersWellFormed(st: State, st': State, share: Share, gone: Option<Uid>)
    requires Bystanders(st, st', share, gone)
    ensures WellFormed(st) && WellFormed(st') && Bystanders(st', st, share, gone)
  {
  }

  lemma OtherPoliciesStay(st: State, st': State, share: Share, gone: Option<Uid>)
    requires Bystanders(st, st', share, gone)
    ensures forall u | u in st.policies && st.policies[u].name !in OwnNames(share) :: Has(st', st.policies[u])
  {
    hide WellFormed, LevelViewOf, OwnNames, Has;
    forall u | u in st.policies && st.policies[u].name !in OwnNames(share)
      ensures Has(st', st.policies[u])
    {
      SameViewHas(st, st', st.policies[u].name);
    }
  }

  lemma AttachmentStays(st: State, st': State, share: Share, gone: Option<Uid>, f: Uid, name: string)
    requires Bystanders(st, st', share, gone) && name !in OwnNames(share) && Some(f) != gone
    ensures Attaches(st', f, name) <==> Attaches(st, f, name)
  {
    hide WellFormed, LevelViewOf, OwnNames, Attaches;
    ViewAttaches(st, f, name);
    ViewAttaches(st', f, name);
  }

  lemma BothLevels(st: State, share: Share)
    ensures (forall l: Level :: FindPolicy(st, PolicyName(share.id, l)).None?) <==>
            FindPolicy(st, PolicyName(share.id, RW)).None? && FindPolicy(st, PolicyName(share.id, RO)).None?
  {
    hide FindPolicy, PolicyName;
    assert forall l: Level :: PolicyName(share.id, l) == PolicyName(share.id, if l.RW? then RW else RO);
  }

  lemma BystandersRefl(st: State, share: Share, gone: Option<Uid>)
    requires WellFormed(st)
    ensures Bystanders(st, st, share, gone)
  {
  }

  lemma CleanupSparesBystanders(st0: State, st1: State, st2: State, share: Share, fs: Uid)
    requires WellFormed(st0) && WellFormed(st1) && WellFormed(st2)
    requires SameExcept(st0, st1, Some(fs), {PolicyName(share.id, RW)})
    requires SameExcept(st1, st2, Some(fs), {PolicyName(share.id, RO)})
    ensures Bystanders(st0, st2, share, Some(fs))
    ensures FindPolicy(st1, PolicyName(share.id, RW)).None? ==> FindPolicy(st2, PolicyName(share.id, RW)).None?
    ensures st2.filesystems == st0.filesystems
  {
    hide WellFormed, LevelViewOf;
    var rw, ro := PolicyName(share.id, RW), PolicyName(share.id, RO);
    assert st2.filesystems == st0.filesystems;
    assert rw != ro by {
      var n := |"manila-" + Text.Take(share.id, 8) + "-"|;
      assert rw[n + 1] == 'w' && ro[n + 1] == 'o';
    }
    hide PolicyName, SameExcept, FindPolicy;
    ForeignView(st1, st2, Some(fs), {ro}, rw, None);
    forall name, f: Option<Uid> | name !in OwnNames(share)
      ensures LevelViewOf(st2, f, name) == LevelViewOf(st0, f, name)
    {
      ForeignView(st0, st1, Some(fs), {rw}, name, f);
      ForeignView(st1, st2, Some(fs), {ro}, name, f);
    }
  }

  /** Deleting a filesystem detaches its policies and nothing else. */
  lemma FsDeletionSparesPolicies(st: State, fs: Uid, fsName: string)
    requires WellFormed(st) && FindFs(st, fsName) == Some(fs)
    ensures var st' := Serve(st, DeleteFilesystem(fs)).0;
      && Serve(st, DeleteFilesystem(fs)).1 == Done
      && WellFormed(st')
      && FindFs(st', fsName).None?
      && st'.policies == st.policies
      && forall a | a in st.attached && a.0 != fs :: a in st'.attached
    ensures forall a | a in Serve(st, DeleteFilesystem(fs)).0.attached :: a in st.attached && a.0 != fs
  {
    ServeWellFormed(st, DeleteFilesystem(fs));
  }

  lemma DeletionSparesBystanders(st0: State, st: State, st': State, share: Share, fs: Uid)
    requires Bystanders(st0, st, share, Some(fs)) && WellFormed(st')
    requires st' == st || (st'.policies == st.policies && (forall a | a in st.attached && a.0 != fs :: a in st'.attached)
                           && forall a | a in st'.attached :: a in st.attached && a.0 != fs)
    ensures Bystanders(st0, st', share, Some(fs))
    ensures forall name :: FindPolicy(st', name) == FindPolicy(st, name)
  {
    hide PolicyName;
    forall name
      ensures FindPolicy(st', name) == FindPolicy(st, name)
    {
      if FindPolicy(st, name).Some? {
        FindIs(st', name, FindPolicy(st, name).value);
      }
    }
    hide WellFormed, FindPolicy;
    forall name, f: Option<Uid> | name !in OwnNames(share) && (f.None? || f != Some(fs))
      ensures LevelViewOf(st', f, name) == LevelViewOf(st0, f, name)
    {
      if f.Some? && FindPolicy(st, name).Some? {
        assert (f.value, FindPolicy(st, name).value) in st'.attached <==> (f.value, FindPolicy(st, name).value) in st.attached;
      }
      assert LevelViewOf(st', f, name) == LevelViewOf(st, f, name);
    }
  }

  // ---- runs ----

  /** One operation of a run: who acted, and which filesystem, if any, it deleted. */
  datatype Act = Act(share: Share, gone: Option<Uid>)

  ghost predicate IsRun(states: seq<State>, acts: seq<Act>)
  {
    && |states| == |acts| + 1
    && forall i | 0 <= i < |acts| :: Bystanders(states[i], states[i + 1], acts[i].share, acts[i].gone)
  }

  lemma {:induction false} RunKeepsName(states: seq<State>, acts: seq<Act>, fs: Option<Uid>, name: string)
    requires IsRun(states, acts)
    requires forall i | 0 <= i < |acts| :: name !in OwnNames(acts[i].share) && (fs.None? || acts[i].gone != fs)
    ensures LevelViewOf(states[|acts|], fs, name) == LevelViewOf(states[0], fs, name)
  {
    hide LevelViewOf, WellFormed, OwnNames;
    if |acts| > 0 {
      var n := |acts| - 1;
      RunKeepsName(states[..|acts|], acts[..n], fs, name);
      assert Bystanders(states[n], states[n + 1], acts[n].share, acts[n].gone);
    }
  }

  /** Whatever shares with other dash-free prefixes do, and whatever fails, a share's own
      policies and every group policy keep their contents and attachments. */
  lemma NamespacesNeverInterfere(states: seq<State>, acts: seq<Act>, victim: Share, group: string, fs: Option<Uid>)
    requires IsRun(states, acts)
    requires Prefix8(Text.Take(victim.id, 8))
    requires forall i | 0 <= i < |acts| ::
      && Prefix8(Text.Take(acts[i].share.id, 8)) && Text.Take(acts[i].share.id, 8) != Text.Take(victim.id, 8)
      && (fs.None? || acts[i].gone != fs)
    ensures ViewOf(states[|acts|], victim, fs) == ViewOf(states[0], victim, fs)
    ensures forall l: Level ::
      LevelViewOf(states[|acts|], fs, GroupPolicyName(group, l)) == LevelViewOf(states[0], fs, GroupPolicyName(group, l))
  {
    hide LevelViewOf, WellFormed, PolicyName, GroupPolicyName, Bystanders;
    forall l: Level
      ensures LevelViewOf(states[|acts|], fs, PolicyName(victim.id, l)) == LevelViewOf(states[0], fs, PolicyName(victim.id, l))
      ensures LevelViewOf(states[|acts|], fs, GroupPolicyName(group, l)) == LevelViewOf(states[0], fs, GroupPolicyName(group, l))
    {
      forall i | 0 <= i < |acts|
        ensures PolicyName(victim.id, l) !in OwnNames(acts[i].share)
        ensures GroupPolicyName(group, l) !in OwnNames(acts[i].share)
      {
        forall k: Level
          ensures PolicyName(acts[i].share.id, k) != PolicyName(victim.id, l)
          ensures PolicyName(acts[i].share.id, k) != GroupPolicyName(group, l)
        {
          PolicyNameInjective(acts[i].share.id, k, victim.id, l);
          PolicyNameNotGroup(acts[i].share.id, k, group, l);
        }
      }
      RunKeepsName(states, acts, fs, PolicyName(victim.id, l));
      RunKeepsName(states, acts, fs, GroupPolicyName(group, l));
    }
  }
}
