/** update_access of a WEKAFS share, end to end: full sync and incremental calls. */
module WekafsUpdate {
  import opened Results
  import opened Rules
  import opened Cluster
  import opened AccessView
  import opened RuleMaps
  import opened Wekafs
  import opened WekafsAccess
  import opened WekafsNamespaces
  import opened WekafsPromises
  import Net
  import Text

  /** The states a fault-free call reports; later rules overwrite earlier ones of the same id. */
  function StatesOf(rules: seq<Rule>, v6: Ipv6Test): States
  {
    if rules == [] then map[]
    else
      var before, rule := StatesOf(rules[..|rules| - 1], v6), rules[|rules| - 1];
      if rule.kind == "ip" && v6(rule.to) then before
      else before[rule.id := if Malformed(rule, v6) then Errored else Active]
  }

  /** Rule k of the first n is reported active and nothing later in them repeats its id or address. */
  ghost predicate Claims(rules: seq<Rule>, k: int, n: int, states: States, v6: Ipv6Test)
  {
    && 0 <= k < n <= |rules|
    && GrantOf(rules[k], v6).Some?
    && rules[k].id in states && states[rules[k].id].Active?
    && forall j | k < j < n :: rules[j].id != rules[k].id && !Names(Grants(v6), rules[j], GrantOf(rules[k], v6).value.key)
  }

  ghost predicate Sound(v: View, rules: seq<Rule>, n: int, states: States, v6: Ipv6Test)
  {
    forall k | Claims(rules, k, n, states, v6) :: Granted(v, GrantOf(rules[k], v6).value)
  }

  /** Every rule reported active, and not contradicted later in the call, is in force. */
  ghost predicate InForce(v: View, add: seq<Rule>, delete: seq<Rule>, states: States, v6: Ipv6Test)
  {
    forall k | Claims(add, k, |add|, states, v6) && forall d | d in delete :: !Names(Grants(v6), d, GrantOf(add[k], v6).value.key) ::
      Granted(v, GrantOf(add[k], v6).value)
  }

  lemma SoundStep(st: State, st': State, share: Share, fs: Option<Uid>, rules: seq<Rule>, n: nat,
                  before: States, after: States, v6: Ipv6Test)
    requires n < |rules| && Sound(ViewOf(st, share, fs), rules, n, before, v6)
    requires after == before || after == before[rules[n].id := Active] || after == before[rules[n].id := Errored]
    requires GrantOf(rules[n], v6).None? ==> st' == st
    requires GrantOf(rules[n], v6).Some? ==>
      && Moved(st, st', share, fs, GrantOf(rules[n], v6).value.key)
      && (rules[n].id in after && after[rules[n].id].Active? ==> Granted(ViewOf(st', share, fs), GrantOf(rules[n], v6).value))
    ensures Sound(ViewOf(st', share, fs), rules, n + 1, after, v6)
  {
    hide WellFormed, LevelViewOf, PolicyName, SameExcept, GrantOf, Moved, Granted;
    forall k | Claims(rules, k, n + 1, after, v6)
      ensures Granted(ViewOf(st', share, fs), GrantOf(rules[k], v6).value)
    {
      if k < n {
        var g := GrantOf(rules[k], v6).value;
        assert rules[n].id != rules[k].id && !Names(Grants(v6), rules[n], g.key);
        assert Claims(rules, k, n, before, v6);
        if GrantOf(rules[n], v6).Some? {
          MovedKeepsGrant(st, st', share, fs, GrantOf(rules[n], v6).value.key, g);
        }
      }
    }
  }

  /** The add and update rules of one call. */
  method ApplyRules(s: Session, share: Share, fs: Option<Uid>, rules: seq<Rule>, v6: Ipv6Test) returns (states: States)
    requires WellFormed(s.st) && (fs.Some? ==> fs.value in s.st.filesystems)
    modifies s
    ensures s.clock >= old(s.clock)
    ensures Confined(old(s.st), s.st, share, fs)
    ensures fs.Some? ==> Sound(ViewOf(s.st, share, fs), rules, |rules|, states, v6)
    ensures (forall r | r in rules :: !Ipv4(r, v6)) ==> s.st == old(s.st)
    ensures s.Reliable(old(s.clock)) ==>
      && ViewOf(s.st, share, fs) == Applied(ViewOf(old(s.st), share, fs), rules, fs.Some?, v6)
      && states == StatesOf(rules, v6)
  {
    hide WellFormed, LevelViewOf, PolicyName, SameExcept, GrantOf, Moved, Granted, Confined, ViewOf, Claims, Net.PolicyIp;
    states := map[];
    ghost var st0 := s.st;
    ConfinedRefl(s.st, share, fs);
    SoundAtStart(ViewOf(s.st, share, fs), rules, v6);
    for i := 0 to |rules|
      invariant s.clock >= old(s.clock)
      invariant Confined(st0, s.st, share, fs)
      invariant fs.Some? ==> Sound(ViewOf(s.st, share, fs), rules, i, states, v6)
      invariant (forall r | r in rules :: !Ipv4(r, v6)) ==> s.st == st0
      invariant s.Reliable(old(s.clock)) ==>
        && ViewOf(s.st, share, fs) == Applied(ViewOf(st0, share, fs), rules[..i], fs.Some?, v6)
        && states == StatesOf(rules[..i], v6)
    {
      var rule := rules[i];
      assert rules[..i + 1][..i] == rules[..i];
      ghost var st1, before := s.st, states;
      ConfinedFs(st0, st1, share, fs);
      GrantNeedsIpv4(rule, v6);
      if rule.kind != "ip" {
        states := states[rule.id := Active];
      } else if v6(rule.to) {
      } else {
        var applied := ApplyRule(s, share, fs, rule, v6);
        states := states[rule.id := if applied.Ok? then Active else Errored];
        if GrantOf(rule, v6).Some? {
          MovedConfined(st1, s.st, share, fs, GrantOf(rule, v6).value.key);
          ConfinedTrans(st0, st1, s.st, share, fs);
        }
      }
      if fs.Some? {
        SoundStep(st1, s.st, share, fs, rules, i, before, states, v6);
      }
      ApplyOneNone(ViewOf(st1, share, fs), rule, fs.Some?, v6);
    }
    assert rules[..|rules|] == rules;
  }

  lemma SoundAtStart(v: View, rules: seq<Rule>, v6: Ipv6Test)
    ensures Sound(v, rules, 0, map[], v6)
  {
    hide GrantOf;
  }

  lemma GrantNeedsIpv4(rule: Rule, v6: Ipv6Test)
    ensures GrantOf(rule, v6).Some? <==> Ipv4(rule, v6) && !Malformed(rule, v6)
  {
  }

  lemma ApplyOneNone(v: View, rule: Rule, hasFs: bool, v6: Ipv6Test)
    ensures GrantOf(rule, v6).None? ==> ApplyOne(v, rule, hasFs, v6) == v
  {
  }

  /** The delete rules of one call; failures are logged and skipped. */
  method RemoveRules(s: Session, share: Share, fs: Option<Uid>, rules: seq<Rule>, v6: Ipv6Test)
    requires WellFormed(s.st) && (fs.Some? ==> fs.value in s.st.filesystems)
    modifies s
    ensures s.clock >= old(s.clock)
    ensures Confined(old(s.st), s.st, share, fs)
    ensures forall g: Grant | Granted(ViewOf(old(s.st), share, fs), g) && (forall d | d in rules :: !Names(Grants(v6), d, g.key)) ::
      Granted(ViewOf(s.st, share, fs), g)
    ensures (forall r | r in rules :: !Ipv4(r, v6)) ==> s.st == old(s.st)
    ensures s.Reliable(old(s.clock)) ==>
      ViewOf(s.st, share, fs) == Removed(ViewOf(old(s.st), share, fs), rules, v6)
  {
    hide WellFormed, LevelViewOf, PolicyName, SameExcept, GrantOf, Moved, Granted, Confined, ViewOf, Net.PolicyIp;
    ghost var st0 := s.st;
    ConfinedRefl(s.st, share, fs);
    for i := 0 to |rules|
      invariant s.clock >= old(s.clock)
      invariant Confined(st0, s.st, share, fs)
      invariant forall g: Grant | Granted(ViewOf(st0, share, fs), g) && (forall d | d in rules :: !Names(Grants(v6), d, g.key)) ::
        Granted(ViewOf(s.st, share, fs), g)
      invariant (forall r | r in rules :: !Ipv4(r, v6)) ==> s.st == st0
      invariant s.Reliable(old(s.clock)) ==>
        ViewOf(s.st, share, fs) == Removed(ViewOf(st0, share, fs), rules[..i], v6)
    {
      var rule := rules[i];
      assert rules[..i + 1][..i] == rules[..i];
      ghost var st1 := s.st;
      ConfinedFs(st0, st1, share, fs);
      GrantNeedsIpv4(rule, v6);
      var removed := RemoveRule(s, share, fs, rule, v6);
      if GrantOf(rule, v6).Some? {
        ghost var ip := GrantOf(rule, v6).value.key;
        MovedConfined(st1, s.st, share, fs, ip);
        ConfinedTrans(st0, st1, s.st, share, fs);
        forall g: Grant | Granted(ViewOf(st0, share, fs), g) && (forall d | d in rules :: !Names(Grants(v6), d, g.key))
          ensures Granted(ViewOf(s.st, share, fs), g)
        {
          assert rule in rules && !Names(Grants(v6), rule, g.key);
          MovedKeepsGrant(st1, s.st, share, fs, ip, g);
        }
      }
    }
    assert rules[..|rules|] == rules;
  }

  /** _prune_wekafs_rules. A malformed rule raises before anything is pruned. */
  method Prune(s: Session, share: Share, fs: Option<Uid>, rules: seq<Rule>, v6: Ipv6Test) returns (r: Outcome<(), Error>)
    requires WellFormed(s.st) && (fs.Some? ==> fs.value in s.st.filesystems)
    modifies s
    ensures s.clock >= old(s.clock)
    ensures Confined(old(s.st), s.st, share, fs)
    ensures forall g: Grant | Granted(ViewOf(old(s.st), share, fs), g) && g.key in Expected(rules, g.value, v6) ::
      Granted(ViewOf(s.st, share, fs), g)
    ensures (exists x | x in rules :: Malformed(x, v6)) ==> r == Raised(BadAddress) && s.st == old(s.st)
    ensures s.Reliable(old(s.clock)) && (forall x | x in rules :: !Malformed(x, v6)) ==>
      r.Ok? && ViewOf(s.st, share, fs) == Pruned(ViewOf(old(s.st), share, fs), rules, v6)
  {
    hide WellFormed, LevelViewOf, PolicyName, SameExcept, GrantOf, Granted, Confined, ViewOf, Expected, Malformed, Net.PolicyIp;
    ghost var st0 := s.st;
    ConfinedRefl(st0, share, fs);
    var rw := ExpectedIps(rules, RW, v6);
    var ro := ExpectedIps(rules, RO, v6);
    if rw.None? || ro.None? {
      return Raised(BadAddress);
    }
    var _ :- PruneLevel(s, share, fs, RW, rw.value);
    ghost var st1 := s.st;
    ConfinedFs(st0, st1, share, fs);
    r := PruneLevel(s, share, fs, RO, ro.value);
    ConfinedTrans(st0, st1, s.st, share, fs);
  }

  /** The rules of one call, once the filesystem has been looked up: apply, remove and, in a full
      sync, prune. */
  method RunRules(s: Session, share: Share, fs: Option<Uid>, add: seq<Rule>, delete: seq<Rule>, fullSync: bool, v6: Ipv6Test)
    returns (r: Outcome<States, Error>)
    requires WellFormed(s.st) && (fs.Some? ==> fs.value in s.st.filesystems)
    modifies s
    ensures s.clock >= old(s.clock)
    ensures Confined(old(s.st), s.st, share, fs)
    ensures r.Ok? && fs.Some? ==> InForce(ViewOf(s.st, share, fs), add, delete, r.value, v6)
    ensures !fullSync && (forall x | x in add + delete :: !Ipv4(x, v6)) ==> s.st == old(s.st)
    ensures s.Reliable(old(s.clock)) ==>
      && (r.Raised? <==> fullSync && exists x | x in add :: Malformed(x, v6))
      && (r.Ok? ==> r.value == StatesOf(add, v6))
      && var w := Removed(Applied(ViewOf(old(s.st), share, fs), add, fs.Some?, v6), delete, v6);
         ViewOf(s.st, share, fs) == if fullSync && r.Ok? then Pruned(w, add, v6) else w
  {
    hide WellFormed, LevelViewOf, PolicyName, SameExcept, GrantOf, Granted, Confined, ViewOf, Claims, Malformed,
      InForce, Sound, Net.PolicyIp;
    ghost var st1 := s.st;
    var states := ApplyRules(s, share, fs, add, v6);
    ghost var st2 := s.st;
    ConfinedFs(st1, st2, share, fs);
    RemoveRules(s, share, fs, delete, v6);
    ghost var st3 := s.st;
    ConfinedTrans(st1, st2, st3, share, fs);
    if fs.Some? {
      RemovalKeepsForce(ViewOf(st2, share, fs), ViewOf(st3, share, fs), add, delete, states, v6);
    }
    if fullSync {
      ConfinedFs(st1, st3, share, fs);
      var pruned := Prune(s, share, fs, add, v6);
      ConfinedTrans(st1, st3, s.st, share, fs);
      if pruned.Raised? {
        return Raised(pruned.error);
      }
      if fs.Some? {
        PruningKeepsForce(ViewOf(st3, share, fs), ViewOf(s.st, share, fs), add, delete, states, v6);
      }
    }
    return Ok(states);
  }

  /** _update_wekafs_access. `group` is the share type's security-policy group, if any. */
  method UpdateWekafsAccess(s: Session, share: Share, group: Option<string>, mountUser: string,
                            add: seq<Rule>, delete: seq<Rule>, fullSync: bool, v6: Ipv6Test)
    returns (r: Outcome<States, Error>)
    requires WellFormed(s.st)
    requires fullSync ==> delete == []
    modifies s
    ensures Confined(old(s.st), s.st, share, FindFs(old(s.st), share.fsName))
    ensures group.Some? ==> s.st == old(s.st).(users := s.st.users) && s.st.users <= old(s.st).users + {mountUser}
    ensures group.Some? && r.Ok? ==> forall x | x in add :: x.id in r.value && r.value[x.id].Active?
    ensures r.Ok? && add != [] ==> mountUser in s.st.users
    // Whatever fails: an active rule that nothing later in the call contradicts is in force.
    ensures r.Ok? && group.None? && FindFs(old(s.st), share.fsName).Some? ==>
      InForce(ViewOf(s.st, share, FindFs(old(s.st), share.fsName)), add, delete, r.value, v6)
    // Nothing fails: the share's view moves as specified and the states are exact.
    ensures s.Reliable(old(s.clock)) && group.None? ==>
      && (r.Raised? <==> fullSync && exists x | x in add :: Malformed(x, v6))
      && (r.Ok? ==> r.value == StatesOf(add, v6))
      && var fs := FindFs(old(s.st), share.fsName);
         var w := Removed(Applied(ViewOf(old(s.st), share, fs), add, fs.Some?, v6), delete, v6);
         ViewOf(s.st, share, fs) == if fullSync && r.Ok? then Pruned(w, add, v6) else w
  {
    hide WellFormed, LevelViewOf, PolicyName, SameExcept, GrantOf, Granted, Confined, ViewOf, Claims, Malformed,
      InForce, Sound, Net.PolicyIp, Serve, Repeat, Session.Ends, Session.FirstReplyLost, Session.Unseen,
      Session.AnsweredFrom;
    ghost var st0 := s.st;
    ghost var target := FindFs(st0, share.fsName);
    ConfinedRefl(st0, share, target);
    if add != [] {
      CreateUserEffect(st0, mountUser, share, target);
      var a, _ := s.Call(CreateUser(mountUser));
      if a.Refused? && !IsAlreadyExists(a.error) {
        return Raised(a.error);
      }
    }
    ghost var st1 := s.st;
    if group.Some? {
      return Ok(AllActive(add));
    }
    var ipWork := exists i | 0 <= i < |add + delete| :: (add + delete)[i].kind == "ip";
    var fs: Option<Uid> := None;
    if ipWork || fullSync {
      fs :- GetFilesystemByName(s, share.fsName);
    }
    NoIpWork(add, delete, ipWork, v6);
    r := RunRules(s, share, fs, add, delete, fullSync, v6);
    ConfinedFs(st1, s.st, share, fs);
    if ipWork || fullSync {
      ConfinedTrans(st0, st1, s.st, share, fs);
    } else {
      // the filesystem was not looked up, and nothing was sent
      IdleViews(ViewOf(st1, share, target), add, delete, target.Some?, v6);
      if target.Some? && r.Ok? {
        IdleInForce(ViewOf(s.st, share, target), add, delete, r.value, v6);
      }
    }
  }

  /** update_access for a WEKAFS share, in either contract mode. */
  method UpdateAccess(s: Session, share: Share, group: Option<string>, mountUser: string, accessRules: seq<Rule>,
                      add: seq<Rule>, delete: seq<Rule>, update: seq<Rule>, v6: Ipv6Test)
    returns (r: Outcome<States, Error>)
    requires WellFormed(s.st)
    modifies s
    ensures Confined(old(s.st), s.st, share, FindFs(old(s.st), share.fsName))
    ensures r.Ok? && group.None? && FindFs(old(s.st), share.fsName).Some? ==>
      InForce(ViewOf(s.st, share, FindFs(old(s.st), share.fsName)),
              if add + delete + update == [] then accessRules else add + update, delete, r.value, v6)
    // A fault-free full sync leaves exactly the rules' addresses, whatever was there, ...
    ensures s.Reliable(old(s.clock)) && group.None? && FindFs(old(s.st), share.fsName).Some? && add + delete + update == [] ==>
      var before, after := ViewOf(old(s.st), share, FindFs(old(s.st), share.fsName)), ViewOf(s.st, share, FindFs(old(s.st), share.fsName));
      && (r.Ok? <==> forall x | x in accessRules :: !Malformed(x, v6))
      && (r.Ok? ==> after == Synced(before, accessRules, true, v6))
      && (r.Ok? && (NoEmpty(before) || exists x | x in accessRules :: GrantOf(x, v6).Some?) ==>
            Exact(after, LastLevel(accessRules, v6)))
      // ... but one malformed network makes it raise with nothing pruned.
      && (r.Raised? ==> after == Applied(before, accessRules, true, v6))
    ensures s.Reliable(old(s.clock)) && group.None? && FindFs(old(s.st), share.fsName).Some? && add + delete + update == [] && r.Ok? ==>
      Syncs(old(s.st), s.st, share, accessRules, v6)
    ensures s.Reliable(old(s.clock)) && group.None? && FindFs(old(s.st), share.fsName).Some? && add + delete + update != [] ==>
      r.Ok? && Performs(old(s.st), s.st, share, Delta(add, update, delete), v6)
    ensures r.Ok? && (if add + delete + update == [] then accessRules else add + update) != [] ==> mountUser in s.st.users
    // The same in the cluster's terms. Whatever fails, nothing but the share's two policies is
    // touched, and every rule reported active is honoured.
    ensures OthersUntouched(old(s.st), s.st, share) && FlagsRight(old(s.st), s.st, share)
    ensures r.Ok? && group.None? && HasFs(old(s.st), share) ==>
      ActiveHonoured(s.st, share, if add + delete + update == [] then accessRules else add + update, delete, r.value, v6)
    // If nothing fails, every well-formed rule is, and nothing else is admitted after a full sync
    // that names an address or finds no empty policy; only a malformed network makes it raise.
    ensures s.Reliable(old(s.clock)) && group.None? && HasFs(old(s.st), share) ==>
      AllHonoured(s.st, share, if add + delete + update == [] then accessRules else add + update, delete, v6)
    ensures s.Reliable(old(s.clock)) && group.None? ==>
      && (r.Raised? <==> add + delete + update == [] &&
                         exists x :: x in accessRules && x.kind == "ip" && !v6(x.to) && Net.PolicyIp(x.to).None?)
      && (r.Ok? ==> StatesInFull(r.value, if add + delete + update == [] then accessRules else add + update, v6))
    ensures s.Reliable(old(s.clock)) && group.None? && HasFs(old(s.st), share) && add + delete + update == [] && r.Ok? ==>
      ((exists x, ip :: x in accessRules && Addresses(x, ip, v6)) || !HasEmpty(old(s.st), share) ==>
        NothingElse(s.st, share, accessRules, v6))
    // A share whose type names a policy group gets every rule reported active, and no policy.
    ensures group.Some? ==> s.st == old(s.st).(users := s.st.users) && s.st.users <= old(s.st).users + {mountUser}
    ensures group.Some? && r.Ok? ==> forall x | x in (if add + delete + update == [] then accessRules else add + update) ::
      x.id in r.value && r.value[x.id].Active?
  {
    hide WellFormed, LevelViewOf, PolicyName, SameExcept, GrantOf, Granted, Confined, ViewOf, Malformed, InForce,
      Net.PolicyIp, LastLevel, Exact, NoEmpty, Applied, Pruned, ActiveHonoured, AllHonoured, NothingElse, HasFs, HasEmpty,
      FlagsRight, OthersUntouched, StatesInFull, Addresses, FindFs, StatesOf;
    var fullSync := add == [] && delete == [] && update == [];
    assert fullSync <==> add + delete + update == [] by {
      assert |add + delete + update| == |add| + |delete| + |update|;
    }
    var apply := (if fullSync then accessRules else add) + update;
    assert fullSync ==> apply == accessRules;
    ghost var before := ViewOf(s.st, share, FindFs(s.st, share.fsName));
    r := UpdateWekafsAccess(s, share, group, mountUser, apply, delete, fullSync, v6);
    assert Removed(Applied(before, apply, true, v6), [], v6) == Applied(before, apply, true, v6);
    FullSyncSelfStabilises(before, accessRules, v6);
    ConfinedKeepsFs(old(s.st), s.st, share, FindFs(old(s.st), share.fsName));
    UpdateInFull(old(s.st), s.st, share, apply, delete, fullSync, r, v6);
    if s.Reliable(old(s.clock)) && group.None? && FindFs(old(s.st), share.fsName).Some? {
      ViewInFull(old(s.st), s.st, share, apply, delete, fullSync && r.Ok?, v6);
    }
  }

  /** What holds of a call whatever fails, and of its states. */
  lemma UpdateInFull(st: State, st': State, share: Share, apply: seq<Rule>, delete: seq<Rule>, fullSync: bool,
                     r: Outcome<States, Error>, v6: Ipv6Test)
    requires WellFormed(st) && Confined(st, st', share, FindFs(st, share.fsName))
    ensures WellFormed(st') && OthersUntouched(st, st', share) && FlagsRight(st, st', share)
    ensures FindFs(st, share.fsName).Some? <==> HasFs(st, share)
    ensures r.Ok? && FindFs(st, share.fsName).Some? && InForce(ViewOf(st', share, FindFs(st, share.fsName)), apply, delete, r.value, v6) ==>
      ActiveHonoured(st', share, apply, delete, r.value, v6)
    ensures (exists x | x in apply :: Malformed(x, v6)) <==> exists x :: x in apply && x.kind == "ip" && !v6(x.to) && Net.PolicyIp(x.to).None?
    ensures StatesInFull(StatesOf(apply, v6), apply, v6)
  {
    ConfinedFrame(st, st', share, FindFs(st, share.fsName));
    ConfinedFlags(st, st', share, FindFs(st, share.fsName));
    ConfinedFs(st, st', share, FindFs(st, share.fsName));
    ConfinedKeepsFs(st, st', share, FindFs(st, share.fsName));
    StatesOfInFull(apply, v6);
    MalformedInFull(apply, v6);
    if r.Ok? && FindFs(st, share.fsName).Some? {
      InForceHonoured(st', share, apply, delete, r.value, v6);
    }
  }

  lemma MalformedInFull(rules: seq<Rule>, v6: Ipv6Test)
    ensures (exists x | x in rules :: Malformed(x, v6)) <==> exists x :: x in rules && x.kind == "ip" && !v6(x.to) && Net.PolicyIp(x.to).None?
  {
    hide Net.PolicyIp;
  }

  lemma InForceHonoured(st: State, share: Share, apply: seq<Rule>, delete: seq<Rule>, states: States, v6: Ipv6Test)
    requires WellFormed(st) && FindFs(st, share.fsName).Some?
    ensures InForce(ViewOf(st, share, FindFs(st, share.fsName)), apply, delete, states, v6) ==>
      ActiveHonoured(st, share, apply, delete, states, v6)
  {
    LastForIsRuleIn(apply, v6);
    hide WellFormed, Admitted, Addresses, ViewOf, Granted, GrantOf, Names;
    if InForce(ViewOf(st, share, FindFs(st, share.fsName)), apply, delete, states, v6) {
      forall k, ip | 0 <= k < |apply| && LastFor(apply, k, ip, v6) && apply[k].id in states && states[apply[k].id].Active? &&
                     (forall j | k < j < |apply| :: apply[j].id != apply[k].id) && (forall d | d in delete :: !Addresses(d, ip, v6))
        ensures Admitted(st, share, apply[k], ip)
      {
        GrantAddresses(apply[k], ip, v6);
        Unnamed(delete, ip, v6);
        forall j | k < j < |apply|
          ensures !Names(Grants(v6), apply[j], ip)
        {
          GrantAddresses(apply[j], ip, v6);
        }
        assert Claims(apply, k, |apply|, states, v6);
        GrantedIsAdmitted(st, share, apply[k], ip);
      }
    }
  }

  lemma StatesOfInFull(rules: seq<Rule>, v6: Ipv6Test)
    ensures StatesInFull(StatesOf(rules, v6), rules, v6)
  {
    StatesOfFollow(rules, (r: Rule) => r.kind == "ip" && Net.PolicyIp(r.to).None?, v6);
  }

  lemma {:induction false} StatesOfFollow(rules: seq<Rule>, wrong: Rule -> bool, v6: Ipv6Test)
    requires forall r: Rule :: wrong(r) <==> r.kind == "ip" && Net.PolicyIp(r.to).None?
    ensures StatesFollow(StatesOf(rules, v6), rules, wrong, v6)
  {
    hide Net.PolicyIp, StatesFollow;
    if rules == [] {
      NoStates(wrong, v6);
    } else {
      StatesOfFollow(rules[..|rules| - 1], wrong, v6);
      StatesOneMore(StatesOf(rules[..|rules| - 1], v6), rules, wrong, v6);
    }
  }

  /** What holds of the state a fault-free call leaves. */
  lemma ViewInFull(st: State, st': State, share: Share, apply: seq<Rule>, delete: seq<Rule>, pruned: bool, v6: Ipv6Test)
    requires WellFormed(st) && WellFormed(st') && FindFs(st', share.fsName) == FindFs(st, share.fsName) && FindFs(st, share.fsName).Some?
    requires pruned ==> delete == []
    requires var fs := FindFs(st, share.fsName);
      var w := Removed(Applied(ViewOf(st, share, fs), apply, true, v6), delete, v6);
      ViewOf(st', share, fs) == if pruned then Pruned(w, apply, v6) else w
    ensures AllHonoured(st', share, apply, delete, v6)
    ensures pruned && ((exists x, ip :: x in apply && Addresses(x, ip, v6)) || !HasEmpty(st, share)) ==> NothingElse(st', share, apply, v6)
  {
    hide WellFormed, ViewOf, Applied, Pruned, AllHonoured, NothingElse, NoEmpty, HasEmpty, Addresses, Exact;
    var v := ViewOf(st, share, FindFs(st, share.fsName));
    if pruned {
      assert Removed(Applied(v, apply, true, v6), [], v6) == Applied(v, apply, true, v6);
      SyncHonours(st', v, share, apply, v6);
      SomeAddress(apply, v6);
      EmptyInFull(st, share);
      FullSyncSelfStabilises(v, apply, v6);
      if NoEmpty(v) || exists x | x in apply :: GrantOf(x, v6).Some? {
        ExactIsNothingElse(st', share, apply, v6);
      }
    } else {
      CallHonours(st', v, share, apply, delete, v6);
    }
  }

  lemma ConfinedKeepsFs(st: State, st': State, share: Share, fs: Option<Uid>)
    requires Confined(st, st', share, fs)
    ensures FindFs(st', share.fsName) == FindFs(st, share.fsName)
  {
    ConfinedFs(st, st', share, fs);
    if FindFs(st, share.fsName).Some? {
      FsIs(st', share.fsName, FindFs(st, share.fsName).value);
    }
  }

  // ---- runs of calls on the cluster ----

  /** What a full sync that returns does to the cluster, as far as the share can see. */
  ghost predicate Syncs(st: State, st': State, share: Share, rules: seq<Rule>, v6: Ipv6Test)
  {
    var fs := FindFs(st, share.fsName);
    fs.Some? && FindFs(st', share.fsName) == fs && ViewOf(st', share, fs) == Synced(ViewOf(st, share, fs), rules, true, v6)
  }

  /** What an incremental call does to it. */
  ghost predicate Performs(st: State, st': State, share: Share, d: Delta, v6: Ipv6Test)
  {
    var fs := FindFs(st, share.fsName);
    fs.Some? && FindFs(st', share.fsName) == fs && ViewOf(st', share, fs) == SteppedView(ViewOf(st, share, fs), d, v6)
  }

  /** What others do to it: nothing this share can see. */
  ghost predicate Elsewhere(st: State, st': State, share: Share)
  {
    var fs := FindFs(st, share.fsName);
    FindFs(st', share.fsName) == fs && ViewOf(st', share, fs) == ViewOf(st, share, fs)
  }

  /** Updates and deletions of shares with other prefixes are like that. */
  lemma OthersAreElsewhere(st: State, st': State, share: Share, other: Share, gone: Option<Uid>)
    requires Bystanders(st, st', other, gone) && FindFs(st', share.fsName) == FindFs(st, share.fsName)
    requires FindFs(st, share.fsName).None? || FindFs(st, share.fsName) != gone
    requires Prefix8(Text.Take(share.id, 8)) && Prefix8(Text.Take(other.id, 8)) && Text.Take(share.id, 8) != Text.Take(other.id, 8)
    ensures Elsewhere(st, st', share)
  {
    hide WellFormed, LevelViewOf, PolicyName;
    forall l: Level, k: Level
      ensures PolicyName(share.id, l) != PolicyName(other.id, k)
    {
      PolicyNameInjective(share.id, l, other.id, k);
    }
  }

  /** A history of the cluster: calls for the share, and None for whatever others do. */
  ghost predicate IsHistory(states: seq<State>, events: seq<Option<Delta>>, share: Share, v6: Ipv6Test)
  {
    && |states| == |events| + 1
    && forall i | 0 <= i < |events| ::
         match events[i]
         case Some(d) => Performs(states[i], states[i + 1], share, d, v6)
         case None => Elsewhere(states[i], states[i + 1], share)
  }

  lemma {:induction false} HistoryIsRun(states: seq<State>, events: seq<Option<Delta>>, share: Share, v6: Ipv6Test)
    requires IsHistory(states, events, share, v6)
    ensures var fs := FindFs(states[0], share.fsName);
      && FindFs(states[|events|], share.fsName) == fs
      && ViewOf(states[|events|], share, fs) == AccessView.Run(ViewOf(states[0], share, fs), Calls(events), v6)
    decreases |events|
  {
    hide ViewOf, FindFs, SteppedView;
    if events != [] {
      HistoryIsRun(states[1..], events[1..], share, v6);
      if events[0].Some? {
        assert Calls(events)[0] == events[0].value && Calls(events)[1..] == Calls(events[1..]);
      } else {
        assert Calls(events) == Calls(events[1..]);
      }
    }
  }

  /** From a full sync on, any history of calls for the share, whatever others do in between,
      leaves it as a full sync on the resulting rules would leave it on any other cluster. */
  lemma HistoryRefinesFullSync(before: State, states: seq<State>, events: seq<Option<Delta>>, other: State, other': State,
                               share: Share, start: seq<Rule>, rs: RuleSet, final: seq<Rule>, v6: Ipv6Test)
    requires |states| == |events| + 1
    requires Syncs(before, states[0], share, start, v6) && NoEmpty(ViewOf(before, share, FindFs(before, share.fsName)))
    requires IsHistory(states, events, share, v6)
    requires Lists(start, rs) && Distinct(rs, Grants(v6)) && LegalRun(rs, Calls(events), Grants(v6))
    requires Syncs(other, other', share, final, v6) && NoEmpty(ViewOf(other, share, FindFs(other, share.fsName)))
    requires Lists(final, FinalRules(rs, Calls(events)))
    ensures var fs, fs' := FindFs(before, share.fsName), FindFs(other, share.fsName);
      && SameAccess(ViewOf(states[|events|], share, fs), ViewOf(other', share, fs'))
      && (WellFlagged(ViewOf(before, share, fs)) && WellFlagged(ViewOf(other, share, fs')) ==>
            ViewOf(states[|events|], share, fs) == ViewOf(other', share, fs'))
  {
    hide ViewOf, FindFs, NoEmpty, WellFlagged, SameAccess, Distinct, LegalRun, Lists, IsHistory;
    HistoryIsRun(states, events, share, v6);
    IncrementalRefinesFullSync(ViewOf(before, share, FindFs(before, share.fsName)), start, rs, Calls(events),
                               ViewOf(other, share, FindFs(other, share.fsName)), final, v6);
  }

  // ---- where full syncs fall short ----

  /** There are malformed networks: such a rule alone makes a full sync raise. */
  lemma MalformedRuleExists(v6: Ipv6Test)
    requires !v6("10.0.0.0/33")
    ensures Malformed(Rule("a", "ip", "10.0.0.0/33", "rw"), v6)
  {
    Net.PrefixOutOfRange();
  }

  /** Group-governed shares accept every rule. */
  function AllActive(rules: seq<Rule>): (states: States)
    ensures forall id :: id in states <==> exists r | r in rules :: r.id == id
    ensures forall id | id in states :: states[id].Active?
  {
    var ids := set r | r in rules :: r.id;
    map id | id in ids :: Active
  }

  lemma CreateUserEffect(st: State, user: string, share: Share, fs: Option<Uid>)
    requires WellFormed(st)
    ensures var st' := Serve(st, CreateUser(user)).0;
      && st' == st.(users := st.users + {user})
      && Confined(st, st', share, fs)
      && ViewOf(st', share, fs) == ViewOf(st, share, fs)
      && FindFs(st', share.fsName) == FindFs(st, share.fsName)
    ensures Serve(st, CreateUser(user)).1.Refused? ==> IsAlreadyExists(Serve(st, CreateUser(user)).1.error)
  {
    var st' := Serve(st, CreateUser(user)).0;
    SameTables(st, st', share, fs);
  }

  lemma SameTables(st: State, st': State, share: Share, fs: Option<Uid>)
    requires WellFormed(st) && st' == st.(users := st'.users) && st.users <= st'.users
    ensures WellFormed(st')
    ensures ViewOf(st', share, fs) == ViewOf(st, share, fs) && FindFs(st', share.fsName) == FindFs(st, share.fsName)
    ensures Confined(st, st', share, fs)
  {
    hide WellFormed, PolicyName, FindPolicy, FindFs;
    UsersWellFormed(st, st');
    SamePolicies(st, st');
    hide ViewOf;
    SameViews(st, st', share, fs);
    UsersConfined(st, st', share, fs);
    ConfinedKeepsFs(st, st', share, fs);
  }

  lemma SamePolicies(st: State, st': State)
    requires WellFormed(st) && WellFormed(st') && st' == st.(users := st'.users)
    ensures forall name :: FindPolicy(st', name) == FindPolicy(st, name)
  {
    hide WellFormed;
    forall name
      ensures FindPolicy(st', name) == FindPolicy(st, name)
    {
      if FindPolicy(st, name).Some? {
        FindIs(st', name, FindPolicy(st, name).value);
      }
    }
  }

  lemma SameViews(st: State, st': State, share: Share, fs: Option<Uid>)
    requires st' == st.(users := st'.users) && forall name :: FindPolicy(st', name) == FindPolicy(st, name)
    ensures ViewOf(st', share, fs) == ViewOf(st, share, fs)
  {
    hide PolicyName, FindPolicy;
  }

  lemma UsersConfined(st: State, st': State, share: Share, fs: Option<Uid>)
    requires WellFormed(st') && st' == st.(users := st'.users) && st.users <= st'.users && ViewOf(st', share, fs) == ViewOf(st, share, fs)
    ensures Confined(st, st', share, fs)
  {
    hide WellFormed, ViewOf;
  }

  lemma UsersWellFormed(st: State, st': State)
    requires WellFormed(st) && st' == st.(users := st'.users)
    ensures WellFormed(st')
  {
  }

  lemma NoIpWork(add: seq<Rule>, delete: seq<Rule>, ipWork: bool, v6: Ipv6Test)
    requires ipWork == exists i | 0 <= i < |add + delete| :: (add + delete)[i].kind == "ip"
    ensures !ipWork ==> (forall r | r in add :: !Ipv4(r, v6)) && (forall r | r in delete :: !Ipv4(r, v6))
    ensures !ipWork ==> forall r | r in add + delete :: !Ipv4(r, v6)
  {
    if !ipWork {
      forall i | 0 <= i < |add| ensures add[i].kind != "ip" {
        assert (add + delete)[i] == add[i];
      }
      forall i | 0 <= i < |delete| ensures delete[i].kind != "ip" {
        assert (add + delete)[|add| + i] == delete[i];
      }
    }
  }

  lemma {:induction false} AppliedIdle(v: View, rules: seq<Rule>, hasFs: bool, v6: Ipv6Test)
    requires forall r | r in rules :: !Ipv4(r, v6)
    ensures Applied(v, rules, hasFs, v6) == v && Removed(v, rules, v6) == v
  {
    if rules == [] {
    } else {
      var last := rules[|rules| - 1];
      assert last in rules;
      AppliedIdle(v, rules[..|rules| - 1], hasFs, v6);
    }
  }

  lemma IdleViews(v: View, add: seq<Rule>, delete: seq<Rule>, hasFs: bool, v6: Ipv6Test)
    requires (forall r | r in add :: !Ipv4(r, v6)) && (forall r | r in delete :: !Ipv4(r, v6))
    ensures Removed(Applied(v, add, hasFs, v6), delete, v6) == v
  {
    AppliedIdle(v, add, hasFs, v6);
    AppliedIdle(v, delete, hasFs, v6);
  }

  lemma IdleInForce(v: View, add: seq<Rule>, delete: seq<Rule>, states: States, v6: Ipv6Test)
    requires forall r | r in add :: !Ipv4(r, v6)
    ensures InForce(v, add, delete, states, v6)
  {
  }

  lemma RemovalKeepsForce(v: View, v': View, add: seq<Rule>, delete: seq<Rule>, states: States, v6: Ipv6Test)
    requires Sound(v, add, |add|, states, v6)
    requires forall g: Grant | Granted(v, g) && (forall d | d in delete :: !Names(Grants(v6), d, g.key)) :: Granted(v', g)
    ensures InForce(v', add, delete, states, v6)
  {
    hide GrantOf, Granted;
  }

  lemma PruningKeepsForce(v: View, v': View, add: seq<Rule>, delete: seq<Rule>, states: States, v6: Ipv6Test)
    requires InForce(v, add, delete, states, v6)
    requires forall g: Grant | Granted(v, g) && g.key in Expected(add, g.value, v6) :: Granted(v', g)
    ensures InForce(v', add, delete, states, v6)
  {
    hide GrantOf, Granted;
    forall k | Claims(add, k, |add|, states, v6) && forall d | d in delete :: !Names(Grants(v6), d, GrantOf(add[k], v6).value.key)
      ensures Granted(v', GrantOf(add[k], v6).value)
    {
      assert add[k] in add;
      assert GrantOf(add[k], v6).value.key in Expected(add, GrantOf(add[k], v6).value.value, v6);
    }
  }
}
