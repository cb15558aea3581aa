/** update_access of an NFS share, end to end: full sync and incremental calls. */
module NfsUpdate {
  import opened Results
  import opened Rules
  import opened RuleMaps
  import opened Cluster
  import opened Nfs
  import opened NfsAccess
  import opened NfsRemoval
  import opened NfsPromises
  import View = NfsView
  import Text

  /** The states a fault-free call reports: only ip rules are supported, IPv6 ones are skipped. */
  function NfsStatesOf(shareId: string, rules: seq<Rule>, v6: Ipv6Test): States
  {
    if rules == [] then map[]
    else
      var before, rule := NfsStatesOf(shareId, rules[..|rules| - 1], v6), rules[|rules| - 1];
      if rule.kind != "ip" then before[rule.id := Errored]
      else if v6(rule.to) then before
      else before[rule.id := if View.ExportOf(shareId, rule, v6).Some? then Active else Errored]
  }

  /** The rule's group holds its address and has a permission of its type. */
  ghost predicate Exported(st: State, fs: string, b: Binding<View.Export>)
  {
    && (exists u :: u in st.perms && st.perms[u] == Permission(fs, b.key, b.value.kind))
    && b.value.address in View.Addresses(ExportsOf(st, fs), b.key)
  }

  lemma IntroExported(st: State, fs: string, name: string, address: string, kind: string)
    requires exists u :: u in st.perms && st.perms[u] == Permission(fs, name, kind)
    requires address in View.Addresses(ExportsOf(st, fs), name)
    ensures Exported(st, fs, Binding(name, View.Export(address, kind)))
  {
  }

  lemma UntouchedStaysExported(st: State, st': State, fs: string, touched: string -> bool, b: Binding<View.Export>)
    requires WellFormed(st) && Within(st, st', fs, touched)
    ensures !touched(b.key) && Exported(st, fs, b) ==> Exported(st', fs, b)
  {
    hide ExportsOf, WellFormed;
    UntouchedGroup(st, st', fs, touched, b.key);
    if !touched(b.key) && Exported(st, fs, b) {
      var u :| u in st.perms && st.perms[u] == Permission(fs, b.key, b.value.kind);
      assert u in st'.perms && st'.perms[u] == st.perms[u];
    }
  }

  lemma UntouchedGroup(st: State, st': State, fs: string, touched: string -> bool, name: string)
    requires WellFormed(st) && Within(st, st', fs, touched)
    ensures !touched(name) && name in ExportsOf(st, fs).groups ==>
      name in ExportsOf(st', fs).groups && ExportsOf(st', fs).groups[name] == ExportsOf(st, fs).groups[name]
  {
    hide ExportsOf, AddressesOf, WellFormed;
    GroupLookupView(st, fs, name);
    WithinWellFormed(st, st', fs, touched);
    GroupLookupView(st', fs, name);
    if !touched(name) && name in ExportsOf(st, fs).groups {
      var g := GroupUid(st, name).value;
      assert g in st'.groups && st'.groups[g] == st.groups[g];
      GroupIs(st', name, g);
    }
  }

  /** Rule k of the first n is reported active and no later one of them shares its group. */
  ghost predicate Claims(shareId: string, rules: seq<Rule>, k: int, n: int, states: States, v6: Ipv6Test)
  {
    && 0 <= k < n <= |rules|
    && View.ExportOf(shareId, rules[k], v6).Some?
    && rules[k].id in states && states[rules[k].id].Active?
    && forall j | k < j < n :: rules[j].id != rules[k].id && GroupName(shareId, rules[j].id) != GroupName(shareId, rules[k].id)
  }

  ghost predicate Sound(st: State, share: Share, rules: seq<Rule>, n: int, states: States, v6: Ipv6Test)
  {
    forall k | Claims(share.id, rules, k, n, states, v6) ::
      Exported(st, share.fsName, View.ExportOf(share.id, rules[k], v6).value)
  }

  /** Every rule reported active, not contradicted later and not hit by a deletion, is in force. */
  ghost predicate InForce(st: State, share: Share, add: seq<Rule>, delete: seq<Rule>, states: States, v6: Ipv6Test)
  {
    forall k | Claims(share.id, add, k, |add|, states, v6) && (forall d | d in delete :: !HitBy(d)(GroupName(share.id, add[k].id))) ::
      Exported(st, share.fsName, View.ExportOf(share.id, add[k], v6).value)
  }

  lemma ExportKey(shareId: string, rule: Rule, v6: Ipv6Test)
    requires View.ExportOf(shareId, rule, v6).Some?
    ensures View.ExportOf(shareId, rule, v6).value.key == GroupName(shareId, rule.id)
  {
  }

  lemma SoundStep(st: State, st': State, share: Share, rules: seq<Rule>, n: nat, before: States, after: States, v6: Ipv6Test)
    requires WellFormed(st) && n < |rules| && Sound(st, share, rules, n, before, v6)
    requires after == before || after == before[rules[n].id := Active] || after == before[rules[n].id := Errored]
    requires Within(st, st', share.fsName, Only(GroupName(share.id, rules[n].id)))
    requires View.ExportOf(share.id, rules[n], v6).Some? && rules[n].id in after && after[rules[n].id].Active? ==>
      Exported(st', share.fsName, View.ExportOf(share.id, rules[n], v6).value)
    ensures Sound(st', share, rules, n + 1, after, v6)
  {
    hide WellFormed, Within, View.ExportOf, Exported, GroupName;
    forall k | Claims(share.id, rules, k, n + 1, after, v6)
      ensures Exported(st', share.fsName, View.ExportOf(share.id, rules[k], v6).value)
    {
      if k < n {
        assert rules[n].id != rules[k].id && GroupName(share.id, rules[n].id) != GroupName(share.id, rules[k].id);
        assert Claims(share.id, rules, k, n, before, v6);
        ExportKey(share.id, rules[k], v6);
        UntouchedStaysExported(st, st', share.fsName, Only(GroupName(share.id, rules[n].id)),
                               View.ExportOf(share.id, rules[k], v6).value);
      }
    }
  }

  // ---- no other type of access ----

  /** Rule k is the only one of the call that names its group. */
  ghost predicate Alone(shareId: string, rules: seq<Rule>, k: int)
  {
    0 <= k < |rules| && forall j | 0 <= j < |rules| && j != k :: GroupName(shareId, rules[j].id) != GroupName(shareId, rules[k].id)
  }

  /** A rule reported active that is alone and not hit by a deletion has no permission of the other
      type beside it, exactly if its group had none in st0 but the one listed first. */
  ghost predicate Exclusively(st0: State, st: State, share: Share, rules: seq<Rule>, n: int, delete: seq<Rule>, states: States, v6: Ipv6Test)
  {
    forall k | 0 <= k < n <= |rules| && Alone(share.id, rules, k) && View.ExportOf(share.id, rules[k], v6).Some?
               && rules[k].id in states && states[rules[k].id].Active?
               && !HitByAny(delete)(GroupName(share.id, rules[k].id)) ::
      var name, kind := GroupName(share.id, rules[k].id), View.KindOf(rules[k]);
      Exclusive(st, share.fsName, name, kind) <==> Replaceable(st0, share.fsName, name, kind)
  }

  /** The groups of the first n rules. */
  function NamedIn(shareId: string, rules: seq<Rule>, n: nat): string -> bool
    requires n <= |rules|
  {
    name => exists j | 0 <= j < n :: GroupName(shareId, rules[j].id) == name
  }

  lemma ExclusivelyStep(st0: State, st: State, st': State, share: Share, rules: seq<Rule>, n: nat, before: States, after: States, v6: Ipv6Test)
    requires n < |rules| && Exclusively(st0, st, share, rules, n, [], before, v6)
    requires after == before || after == before[rules[n].id := Active] || after == before[rules[n].id := Errored]
    requires Within(st0, st, share.fsName, NamedIn(share.id, rules, n))
    requires Within(st, st', share.fsName, Only(GroupName(share.id, rules[n].id)))
    requires View.ExportOf(share.id, rules[n], v6).Some? && rules[n].id in after && after[rules[n].id].Active? && after != before ==>
      var name, kind := GroupName(share.id, rules[n].id), View.KindOf(rules[n]);
      Exclusive(st', share.fsName, name, kind) <==> Replaceable(st, share.fsName, name, kind)
    requires after == before ==> rules[n].id !in before || View.ExportOf(share.id, rules[n], v6).None? || !Alone(share.id, rules, n)
    ensures Exclusively(st0, st', share, rules, n + 1, [], after, v6)
  {
    hide Within, View.ExportOf, Exclusive, Replaceable, GroupName;
    forall k | 0 <= k < n + 1 && Alone(share.id, rules, k) && View.ExportOf(share.id, rules[k], v6).Some?
               && rules[k].id in after && after[rules[k].id].Active?
      ensures var name, kind := GroupName(share.id, rules[k].id), View.KindOf(rules[k]);
        Exclusive(st', share.fsName, name, kind) <==> Replaceable(st0, share.fsName, name, kind)
    {
      var name, kind := GroupName(share.id, rules[k].id), View.KindOf(rules[k]);
      if k < n {
        assert rules[n].id != rules[k].id;
        UntouchedPerms(st, st', share.fsName, Only(GroupName(share.id, rules[n].id)), name, kind);
      } else {
        assert !NamedIn(share.id, rules, n)(name);
        UntouchedPerms(st0, st, share.fsName, NamedIn(share.id, rules, n), name, kind);
      }
    }
  }

  lemma ExclusivelyKept(st0: State, st: State, st': State, share: Share, rules: seq<Rule>, delete: seq<Rule>, delete': seq<Rule>,
                        touched: string -> bool, states: States, v6: Ipv6Test)
    requires Exclusively(st0, st, share, rules, |rules|, delete, states, v6)
    requires Within(st, st', share.fsName, touched)
    requires forall n :: HitByAny(delete)(n) ==> HitByAny(delete')(n)
    requires forall r | r in rules :: touched(GroupName(share.id, r.id)) ==> HitByAny(delete')(GroupName(share.id, r.id))
    ensures Exclusively(st0, st', share, rules, |rules|, delete', states, v6)
  {
    hide Within, View.ExportOf, Exclusive, Replaceable, GroupName, HitByAny, Alone;
    forall k | 0 <= k < |rules| && Alone(share.id, rules, k) && View.ExportOf(share.id, rules[k], v6).Some?
               && rules[k].id in states && states[rules[k].id].Active?
               && !HitByAny(delete')(GroupName(share.id, rules[k].id))
      ensures var name, kind := GroupName(share.id, rules[k].id), View.KindOf(rules[k]);
        Exclusive(st', share.fsName, name, kind) <==> Replaceable(st0, share.fsName, name, kind)
    {
      assert rules[k] in rules;
      UntouchedPerms(st, st', share.fsName, touched, GroupName(share.id, rules[k].id), View.KindOf(rules[k]));
    }
  }

  /** Names some deletion hits. */
  function HitByAny(delete: seq<Rule>): string -> bool
  {
    n => exists d | d in delete :: HitBy(d)(n)
  }

  /** Names an update call may touch on the share's filesystem. */
  function Touched(shareId: string, delete: seq<Rule>): string -> bool
  {
    n => Text.StartsWith(n, GroupPrefix(shareId)) || HitByAny(delete)(n)
  }

  /** The add and update rules of one call. */
  method ApplyRules(s: Session, share: Share, rules: seq<Rule>, ghost delete: seq<Rule>, v6: Ipv6Test) returns (states: States)
    requires WellFormed(s.st)
    modifies s
    ensures s.clock >= old(s.clock)
    ensures Within(old(s.st), s.st, share.fsName, Touched(share.id, delete))
    ensures Sound(s.st, share, rules, |rules|, states, v6)
    ensures Exclusively(old(s.st), s.st, share, rules, |rules|, [], states, v6)
    ensures s.Reliable(old(s.clock)) && UniquePerms(old(s.st), share.fsName) ==>
      && UniquePerms(s.st, share.fsName)
      && ExportsOf(s.st, share.fsName) == View.Applied(ExportsOf(old(s.st), share.fsName), share.id, rules, v6)
      && states == NfsStatesOf(share.id, rules, v6)
  {
    hide WellFormed, Within, ExportsOf, UniquePerms, GroupName, View.ExportOf, Exported, Sound, Touched, View.ApplyOne,
      View.AddressOf, Exclusive, Replaceable, Exclusively, NamedIn, Alone;
    var fs := share.fsName;
    ghost var st0 := s.st;
    ghost var calm := s.Reliable(old(s.clock)) && UniquePerms(st0, fs);
    states := map[];
    WithinRefl(st0, fs, Touched(share.id, delete));
    SoundAtStart(st0, share, rules, v6);
    ExclusivelyAtStart(st0, share, rules, v6);
    WithinRefl(st0, fs, NamedIn(share.id, rules, 0));
    for i := 0 to |rules|
      invariant s.clock >= old(s.clock)
      invariant Within(st0, s.st, fs, Touched(share.id, delete))
      invariant Sound(s.st, share, rules, i, states, v6)
      invariant Within(st0, s.st, fs, NamedIn(share.id, rules, i)) && Exclusively(st0, s.st, share, rules, i, [], states, v6)
      invariant forall id | id in states :: exists j | 0 <= j < i :: rules[j].id == id
      invariant calm ==>
        && UniquePerms(s.st, fs)
        && ExportsOf(s.st, fs) == View.Applied(ExportsOf(st0, fs), share.id, rules[..i], v6)
        && states == NfsStatesOf(share.id, rules[..i], v6)
    {
      var rule := rules[i];
      assert rules[..i + 1][..i] == rules[..i];
      ghost var st1, before, name := s.st, states, GroupName(share.id, rule.id);
      WithinWellFormed(st0, st1, fs, Touched(share.id, delete));
      WithinRefl(st1, fs, Only(name));
      if rule.kind != "ip" {
        ExportNeedsIpv4(share.id, rule, v6);
        states := states[rule.id := Errored];
      } else if v6(rule.to) {
        ExportNeedsIpv4(share.id, rule, v6);
      } else {
        var applied := ApplyRule(s, share, rule);
        if applied.Ok? {
          IntroExported(s.st, fs, name, View.AddressOf(rule.to).value, View.KindOf(rule));
        }
        states := states[rule.id := if applied.Ok? then Active else Errored];
        ExportNeedsIpv4(share.id, rule, v6);
      }
      SoundStep(st1, s.st, share, rules, i, before, states, v6);
      NotAloneIfSeen(share.id, rules, i, before);
      ExclusivelyStep(st0, st1, s.st, share, rules, i, before, states, v6);
      NamedGrows(share.id, rules, i);
      WithinWider(st0, st1, fs, NamedIn(share.id, rules, i), NamedIn(share.id, rules, i + 1));
      WithinWider(st1, s.st, fs, Only(name), NamedIn(share.id, rules, i + 1));
      WithinTrans(st0, st1, s.st, fs, NamedIn(share.id, rules, i + 1));
      OwnTouched(share.id, rule.id, delete);
      WithinWider(st1, s.st, fs, Only(name), Touched(share.id, delete));
      WithinTrans(st0, st1, s.st, fs, Touched(share.id, delete));
    }
    assert rules[..|rules|] == rules;
  }

  lemma SoundAtStart(st: State, share: Share, rules: seq<Rule>, v6: Ipv6Test)
    ensures Sound(st, share, rules, 0, map[], v6)
  {
    hide View.ExportOf, Exported;
  }

  lemma ExclusivelyAtStart(st: State, share: Share, rules: seq<Rule>, v6: Ipv6Test)
    ensures Exclusively(st, st, share, rules, 0, [], map[], v6)
  {
    hide View.ExportOf, Exclusive, Replaceable, GroupName;
  }

  lemma NamedGrows(shareId: string, rules: seq<Rule>, n: nat)
    requires n < |rules|
    ensures forall name :: NamedIn(shareId, rules, n)(name) ==> NamedIn(shareId, rules, n + 1)(name)
    ensures forall name :: Only(GroupName(shareId, rules[n].id))(name) ==> NamedIn(shareId, rules, n + 1)(name)
  {
    hide GroupName;
    forall name | NamedIn(shareId, rules, n)(name)
      ensures NamedIn(shareId, rules, n + 1)(name)
    {
      var j :| 0 <= j < n && GroupName(shareId, rules[j].id) == name;
    }
    assert NamedIn(shareId, rules, n + 1)(GroupName(shareId, rules[n].id));
  }

  /** A rule whose id an earlier one has is not alone. */
  lemma NotAloneIfSeen(shareId: string, rules: seq<Rule>, n: nat, states: States)
    requires n < |rules| && forall id | id in states :: exists j | 0 <= j < n :: rules[j].id == id
    ensures rules[n].id in states ==> !Alone(shareId, rules, n)
  {
    hide GroupName;
    if rules[n].id in states {
      var j :| 0 <= j < n && rules[j].id == rules[n].id;
      assert GroupName(shareId, rules[j].id) == GroupName(shareId, rules[n].id);
    }
  }

  lemma OwnTouched(shareId: string, accessId: string, delete: seq<Rule>)
    ensures Touched(shareId, delete)(GroupName(shareId, accessId))
  {
    View.OwnPrefix(shareId, accessId);
  }

  lemma ExportNeedsIpv4(shareId: string, rule: Rule, v6: Ipv6Test)
    ensures View.ExportOf(shareId, rule, v6) ==
            if Ipv4(rule, v6) && View.AddressOf(rule.to).Some?
            then Some(Binding(GroupName(shareId, rule.id), View.Export(View.AddressOf(rule.to).value, View.KindOf(rule))))
            else None
  {
  }

  /** The delete rules of one call; failures are logged and skipped. */
  method RemoveRules(s: Session, share: Share, rules: seq<Rule>)
    requires WellFormed(s.st)
    modifies s
    ensures s.clock >= old(s.clock)
    ensures Within(old(s.st), s.st, share.fsName, HitByAny(rules))
    ensures forall b: Binding<View.Export> | Exported(old(s.st), share.fsName, b) && (forall d | d in rules :: !HitBy(d)(b.key)) ::
      Exported(s.st, share.fsName, b)
    ensures s.Reliable(old(s.clock)) && UniquePerms(old(s.st), share.fsName) ==>
      && UniquePerms(s.st, share.fsName)
      && ExportsOf(s.st, share.fsName) == View.Removed(ExportsOf(old(s.st), share.fsName), rules)
  {
    hide WellFormed, Within, ExportsOf, UniquePerms, Exported, HitBy, View.Hit, View.Without;
    var fs := share.fsName;
    ghost var st0 := s.st;
    WithinRefl(st0, fs, HitByAny(rules));
    for i := 0 to |rules|
      invariant s.clock >= old(s.clock)
      invariant Within(st0, s.st, fs, HitByAny(rules))
      invariant forall b: Binding<View.Export> | Exported(st0, fs, b) && (forall d | d in rules :: !HitBy(d)(b.key)) ::
        Exported(s.st, fs, b)
      invariant s.Reliable(old(s.clock)) && UniquePerms(st0, fs) ==>
        && UniquePerms(s.st, fs)
        && ExportsOf(s.st, fs) == View.Removed(ExportsOf(st0, fs), rules[..i])
    {
      var rule := rules[i];
      assert rules[..i + 1][..i] == rules[..i];
      ghost var st1 := s.st;
      WithinWellFormed(st0, st1, fs, HitByAny(rules));
      var removed := RemoveRule(s, fs, rule);
      forall b: Binding<View.Export> | Exported(st0, fs, b) && (forall d | d in rules :: !HitBy(d)(b.key))
        ensures Exported(s.st, fs, b)
      {
        assert rule in rules && !HitBy(rule)(b.key);
        UntouchedStaysExported(st1, s.st, fs, HitBy(rule), b);
      }
      HitTouched(rule, rules);
      WithinWider(st1, s.st, fs, HitBy(rule), HitByAny(rules));
      WithinTrans(st0, st1, s.st, fs, HitByAny(rules));
    }
    assert rules[..|rules|] == rules;
  }

  lemma HitTouched(rule: Rule, rules: seq<Rule>)
    requires rule in rules
    ensures forall n | HitBy(rule)(n) :: HitByAny(rules)(n)
  {
    hide HitBy;
  }

  /** _update_nfs_access */
  method UpdateNfsAccess(s: Session, share: Share, add: seq<Rule>, delete: seq<Rule>, fullSync: bool, v6: Ipv6Test)
    returns (r: Outcome<States, Error>)
    requires WellFormed(s.st)
    requires fullSync ==> delete == []
    modifies s
    // Other filesystems and foreign groups are out of reach, whatever fails.
    ensures Within(old(s.st), s.st, share.fsName, Touched(share.id, delete))
    // Whatever fails: an active rule that nothing later in the call contradicts is in force.
    ensures r.Ok? ==> InForce(s.st, share, add, delete, r.value, v6)
    ensures r.Ok? ==> Exclusively(old(s.st), s.st, share, add, |add|, delete, r.value, v6)
    ensures s.Reliable(old(s.clock)) && UniquePerms(old(s.st), share.fsName) ==>
      && r == Ok(NfsStatesOf(share.id, add, v6))
      && UniquePerms(s.st, share.fsName)
      && var w := View.Removed(View.Applied(ExportsOf(old(s.st), share.fsName), share.id, add, v6), delete);
         ExportsOf(s.st, share.fsName) == if fullSync then View.Without(w, View.Stale(w, share.id, add)) else w
  {
    hide WellFormed, Within, ExportsOf, UniquePerms, Exported, Touched, Sound, InForce, Keys, Exclusively, HitByAny, HitBy,
      View.Stale, View.Without, View.ExportOf;
    var fs := share.fsName;
    ghost var st0 := s.st;
    var states := ApplyRules(s, share, add, delete, v6);
    ghost var st1 := s.st;
    WithinWellFormed(st0, st1, fs, Touched(share.id, delete));
    RemoveRules(s, share, delete);
    ghost var st2 := s.st;
    ExclusivelyAfterDeletion(st0, st1, st2, share, add, delete, states, v6);
    WithinWider(st1, st2, fs, HitByAny(delete), Touched(share.id, delete)) by {
      assert forall n :: HitByAny(delete)(n) ==> Touched(share.id, delete)(n) by { HitIsTouched(share.id, delete); }
    }
    WithinTrans(st0, st1, st2, fs, Touched(share.id, delete));
    WithinWellFormed(st0, st2, fs, Touched(share.id, delete));
    RemovalKeepsForce(st1, st2, share, add, delete, states, v6);
    if fullSync {
      assert View.Removed(View.Applied(ExportsOf(st0, fs), share.id, add, v6), delete) ==
             View.Applied(ExportsOf(st0, fs), share.id, add, v6);
      var pruned := Prune(s, share, add);
      ghost var stale := n => Text.StartsWith(n, GroupPrefix(share.id)) && n !in Keys(View.NameReading(share.id), add);
      PruneTouches(st2, s.st, share, add, delete, stale);
      WithinTrans(st0, st2, s.st, fs, Touched(share.id, delete));
      PruningKeepsForce(st2, s.st, share, add, delete, states, stale, v6);
      ExclusivelyAfterPruning(st0, st2, s.st, share, add, delete, stale, states, v6);
      if pruned.Raised? {
        return Raised(pruned.error);
      }
    }
    return Ok(states);
  }

  lemma HitIsTouched(shareId: string, delete: seq<Rule>)
    ensures forall n :: HitByAny(delete)(n) ==> Touched(shareId, delete)(n)
  {
    hide HitByAny;
  }

  lemma ExclusivelyAfterDeletion(st0: State, st: State, st': State, share: Share, add: seq<Rule>, delete: seq<Rule>, states: States, v6: Ipv6Test)
    requires Exclusively(st0, st, share, add, |add|, [], states, v6) && Within(st, st', share.fsName, HitByAny(delete))
    ensures Exclusively(st0, st', share, add, |add|, delete, states, v6)
  {
    hide Exclusively, Within, HitBy;
    ExclusivelyKept(st0, st, st', share, add, [], delete, HitByAny(delete), states, v6);
  }

  lemma ExclusivelyAfterPruning(st0: State, st: State, st': State, share: Share, add: seq<Rule>, delete: seq<Rule>, stale: string -> bool,
                                states: States, v6: Ipv6Test)
    requires Exclusively(st0, st, share, add, |add|, delete, states, v6) && Within(st, st', share.fsName, stale)
    requires forall n :: stale(n) ==> n !in Keys(View.NameReading(share.id), add)
    ensures Exclusively(st0, st', share, add, |add|, delete, states, v6)
  {
    hide Exclusively, Within, HitByAny, GroupName;
    forall r | r in add
      ensures !stale(GroupName(share.id, r.id))
    {
      assert View.NameReading(share.id)(r) == Some(Binding(GroupName(share.id, r.id), ()));
    }
    ExclusivelyKept(st0, st, st', share, add, delete, delete, stale, states, v6);
  }

  lemma PruneTouches(st: State, st': State, share: Share, add: seq<Rule>, delete: seq<Rule>, stale: string -> bool)
    requires Within(st, st', share.fsName, n => Text.StartsWith(n, GroupPrefix(share.id)) && n !in Keys(View.NameReading(share.id), add))
    requires forall n :: stale(n) <==> Text.StartsWith(n, GroupPrefix(share.id)) && n !in Keys(View.NameReading(share.id), add)
    ensures Within(st, st', share.fsName, stale)
    ensures Within(st, st', share.fsName, Touched(share.id, delete))
  {
    hide WellFormed, Text.StartsWith, GroupPrefix, Keys;
  }

  lemma RemovalKeepsForce(st: State, st': State, share: Share, add: seq<Rule>, delete: seq<Rule>, states: States, v6: Ipv6Test)
    requires Sound(st, share, add, |add|, states, v6)
    requires forall b: Binding<View.Export> | Exported(st, share.fsName, b) && (forall d | d in delete :: !HitBy(d)(b.key)) ::
      Exported(st', share.fsName, b)
    ensures InForce(st', share, add, delete, states, v6)
  {
    hide View.ExportOf, Exported, HitBy, GroupName;
    forall k | Claims(share.id, add, k, |add|, states, v6) && (forall d | d in delete :: !HitBy(d)(GroupName(share.id, add[k].id)))
      ensures Exported(st', share.fsName, View.ExportOf(share.id, add[k], v6).value)
    {
      ExportKey(share.id, add[k], v6);
    }
  }

  lemma PruningKeepsForce(st: State, st': State, share: Share, add: seq<Rule>, delete: seq<Rule>, states: States,
                          stale: string -> bool, v6: Ipv6Test)
    requires WellFormed(st) && InForce(st, share, add, delete, states, v6) && Within(st, st', share.fsName, stale)
    requires forall n :: stale(n) ==> n !in Keys(View.NameReading(share.id), add)
    ensures InForce(st', share, add, delete, states, v6)
  {
    hide View.ExportOf, Exported, HitBy, GroupName, WellFormed, Within;
    forall k | Claims(share.id, add, k, |add|, states, v6) && (forall d | d in delete :: !HitBy(d)(GroupName(share.id, add[k].id)))
      ensures Exported(st', share.fsName, View.ExportOf(share.id, add[k], v6).value)
    {
      ExportKey(share.id, add[k], v6);
      assert add[k] in add && View.NameReading(share.id)(add[k]).value.key == GroupName(share.id, add[k].id);
      UntouchedStaysExported(st, st', share.fsName, stale, View.ExportOf(share.id, add[k], v6).value);
    }
  }

  /** update_access for an NFS share, in either contract mode. */
  method UpdateAccess(s: Session, share: Share, accessRules: seq<Rule>, add: seq<Rule>, delete: seq<Rule>, update: seq<Rule>,
                      v6: Ipv6Test)
    returns (r: Outcome<States, Error>)
    requires WellFormed(s.st)
    modifies s
    ensures Within(old(s.st), s.st, share.fsName, Touched(share.id, delete))
    ensures r.Ok? ==>
      var rules := if add + delete + update == [] then accessRules else add + update;
      InForce(s.st, share, rules, delete, r.value, v6) && Exclusively(old(s.st), s.st, share, rules, |rules|, delete, r.value, v6)
    ensures s.Reliable(old(s.clock)) && UniquePerms(old(s.st), share.fsName) && add + delete + update == [] ==>
      r == Ok(NfsStatesOf(share.id, accessRules, v6)) && Syncs(old(s.st), s.st, share, accessRules, v6)
    ensures s.Reliable(old(s.clock)) && UniquePerms(old(s.st), share.fsName) && add + delete + update != [] ==>
      r == Ok(NfsStatesOf(share.id, add + update, v6)) && Performs(old(s.st), s.st, share, Delta(add, update, delete), v6)
    // The same in the cluster's terms. Whatever fails, nothing else is touched, and every rule
    // reported active that stands is allowed at its level.
    ensures OthersUntouched(old(s.st), s.st, share, delete)
    ensures r.Ok? ==>
      ActiveAllowed(old(s.st), s.st, share, if add + delete + update == [] then accessRules else add + update, delete, r.value, v6)
    // If nothing fails, from a start with at most one permission per group, every acceptable rule
    // that stands is, what deletions take is gone, and so is what a full sync finds stale.
    ensures s.Reliable(old(s.clock)) && OnePerGroup(old(s.st), share) ==>
      var rules := if add + delete + update == [] then accessRules else add + update;
      && r.Ok? && StatesInFull(r.value, rules, v6)
      && AllAllowed(s.st, share, rules, delete, v6)
      && GroupsGone(old(s.st), s.st, share, rules, delete, add + delete + update == [])
      && (add + delete + update == [] ==> NoStalePermission(s.st, share, accessRules))
  {
    hide WellFormed, Within, ExportsOf, UniquePerms, Touched, InForce, Exclusively, View.Stale, View.Without, View.ExportOf,
      ActiveAllowed, AllAllowed, GroupsGone, NoStalePermission, StatesInFull, OnePerGroup, OthersUntouched, NfsStatesOf,
      View.Applied, View.Removed;
    var fullSync := add == [] && delete == [] && update == [];
    assert fullSync <==> add + delete + update == [] by {
      assert |add + delete + update| == |add| + |delete| + |update|;
    }
    var apply := (if fullSync then accessRules else add) + update;
    assert fullSync ==> apply == accessRules;
    r := UpdateNfsAccess(s, share, apply, delete, fullSync, v6);
    RemovedNone(View.Applied(ExportsOf(old(s.st), share.fsName), share.id, apply, v6));
    UpdateInFull(old(s.st), s.st, share, apply, delete, r, v6);
    if s.Reliable(old(s.clock)) && OnePerGroup(old(s.st), share) {
      ViewInFull(old(s.st), s.st, share, apply, delete, fullSync, v6);
    }
  }

  /** What holds of a call whatever fails, and of its states. */
  lemma UpdateInFull(st: State, st': State, share: Share, apply: seq<Rule>, delete: seq<Rule>, r: Outcome<States, Error>, v6: Ipv6Test)
    requires WellFormed(st) && Within(st, st', share.fsName, Touched(share.id, delete))
    requires r.Ok? ==> InForce(st', share, apply, delete, r.value, v6) && Exclusively(st, st', share, apply, |apply|, delete, r.value, v6)
    ensures WellFormed(st') && OthersUntouched(st, st', share, delete)
    ensures OnePerGroup(st, share) <==> UniquePerms(st, share.fsName)
    ensures r.Ok? ==> ActiveAllowed(st, st', share, apply, delete, r.value, v6)
    ensures StatesInFull(NfsStatesOf(share.id, apply, v6), apply, v6)
  {
    WithinWellFormed(st, st', share.fsName, Touched(share.id, delete));
    UniqueInFull(st, share);
    hide WellFormed, Within, Touched, InForce, Exclusively, ActiveAllowed, StatesInFull, NfsStatesOf;
    UntouchedInFull(st, st', share, delete);
    StatesOfInFull(share.id, apply, v6);
    if r.Ok? {
      forall k | 0 <= k < |apply| && Stands(share, apply, delete, k) && Acceptable(apply[k], v6) && apply[k].id in r.value && r.value[apply[k].id].Active?
        ensures Allowed(st', share, apply[k])
        ensures OnePerGroup(st, share) && (forall j | 0 <= j < k :: IdPrefix(apply[j].id) != IdPrefix(apply[k].id)) ==>
          OnlyAtLevel(st', share, apply[k])
      {
        RuleInFull(st, st', share, apply, delete, r.value, k, v6);
      }
      AllRulesInFull(st, st', share, apply, delete, r.value, v6);
    }
  }

  lemma AllRulesInFull(st: State, st': State, share: Share, apply: seq<Rule>, delete: seq<Rule>, states: States, v6: Ipv6Test)
    requires forall k | 0 <= k < |apply| && Stands(share, apply, delete, k) && Acceptable(apply[k], v6) && apply[k].id in states && states[apply[k].id].Active? ::
      && Allowed(st', share, apply[k])
      && (OnePerGroup(st, share) && (forall j | 0 <= j < k :: IdPrefix(apply[j].id) != IdPrefix(apply[k].id)) ==> OnlyAtLevel(st', share, apply[k]))
    ensures ActiveAllowed(st, st', share, apply, delete, states, v6)
  {
    hide Allowed, OnlyAtLevel, OnePerGroup, Acceptable, Spared;
  }

  lemma UntouchedInFull(st: State, st': State, share: Share, delete: seq<Rule>)
    requires Within(st, st', share.fsName, Touched(share.id, delete))
    ensures OthersUntouched(st, st', share, delete)
  {
    hide WellFormed, Touched, Foreign, Within, OthersUntouched;
    forall n: string
      ensures Foreign(n, share, delete) <==> !Touched(share.id, delete)(n)
    {
      ForeignInFull(n, share, delete);
    }
    FrameInFull(st, st', share, delete, Touched(share.id, delete));
  }

  lemma FrameInFull(st: State, st': State, share: Share, delete: seq<Rule>, touched: string -> bool)
    requires Within(st, st', share.fsName, touched)
    requires forall n: string :: Foreign(n, share, delete) <==> !touched(n)
    ensures OthersUntouched(st, st', share, delete)
  {
    hide WellFormed, Foreign;
    forall p | p in st.perms && (st.perms[p].fs != share.fsName || Foreign(st.perms[p].group, share, delete))
      ensures p in st'.perms && st'.perms[p] == st.perms[p]
    {
    }
    forall p | p in st'.perms && (st'.perms[p].fs != share.fsName || Foreign(st'.perms[p].group, share, delete))
      ensures p in st.perms
    {
    }
    forall g | g in st.groups && Foreign(st.groups[g].name, share, delete)
      ensures g in st'.groups && st'.groups[g] == st.groups[g]
    {
    }
    forall g | g in st'.groups && Foreign(st'.groups[g].name, share, delete)
      ensures g in st.groups
    {
    }
  }

  lemma ForeignInFull(name: string, share: Share, delete: seq<Rule>)
    ensures Foreign(name, share, delete) <==> !Touched(share.id, delete)(name)
  {
    PrefixInFull(name, share);
    SparedInFull(name, delete);
    hide Text.StartsWith, GroupPrefix, Text.Contains, Text.Take, Spared;
    assert forall d :: HitBy(d)(name) <==> Text.Contains(name, Text.Take(d.id, 8));
    assert HitByAny(delete)(name) <==> exists d | d in delete :: HitBy(d)(name);
  }

  /** A rule reported active that stands. */
  lemma RuleInFull(st: State, st': State, share: Share, apply: seq<Rule>, delete: seq<Rule>, states: States, k: int, v6: Ipv6Test)
    requires WellFormed(st') && InForce(st', share, apply, delete, states, v6) && Exclusively(st, st', share, apply, |apply|, delete, states, v6)
    requires Stands(share, apply, delete, k) && Acceptable(apply[k], v6) && apply[k].id in states && states[apply[k].id].Active?
    ensures Allowed(st', share, apply[k])
    ensures OnePerGroup(st, share) && (forall j | 0 <= j < k :: IdPrefix(apply[j].id) != IdPrefix(apply[k].id)) ==>
      OnlyAtLevel(st', share, apply[k])
  {
    var rule := apply[k];
    AddressInFull(rule, v6);
    SparedInFull(OwnGroup(share, rule), delete);
    OwnGroupInFull(share, rule);
    ExclusiveInFull(st', share, rule);
    UniqueInFull(st, share);
    forall j | 0 <= j < |apply|
      ensures IdPrefix(apply[j].id) != IdPrefix(rule.id) ==> GroupName(share.id, apply[j].id) != GroupName(share.id, rule.id) && apply[j].id != rule.id
    {
      OwnGroupInFull(share, apply[j]);
      GroupNameInjective(share.id, apply[j].id, rule.id);
    }
    hide WellFormed, ExportsOf, UniquePerms, GroupName, OwnGroup, View.AddressOf, View.KindOf, Acceptable, Text.Contains, Spared,
      Text.Take, IdPrefix, Exclusive, Replaceable, OnlyAtLevel, Allowed, OnePerGroup;
    assert Claims(share.id, apply, k, |apply|, states, v6);
    ExportNeedsIpv4(share.id, rule, v6);
    assert Exported(st', share.fsName, View.ExportOf(share.id, rule, v6).value);
    ExportedIsAllowed(st', share, rule);
    if OnePerGroup(st, share) && forall j | 0 <= j < k :: IdPrefix(apply[j].id) != IdPrefix(rule.id) {
      assert Alone(share.id, apply, k);
      UniqueIsReplaceable(st, share.fsName, GroupName(share.id, rule.id), View.KindOf(rule));
    }
  }

  lemma StatesOfInFull(shareId: string, rules: seq<Rule>, v6: Ipv6Test)
    ensures StatesInFull(NfsStatesOf(shareId, rules, v6), rules, v6)
  {
    StatesOfFollow(shareId, rules, (r: Rule) => !Acceptable(r, v6), v6);
  }

  lemma {:induction false} StatesOfFollow(shareId: string, rules: seq<Rule>, wrong: Rule -> bool, v6: Ipv6Test)
    requires forall r: Rule :: wrong(r) <==> !Acceptable(r, v6)
    ensures StatesFollow(NfsStatesOf(shareId, rules, v6), rules, wrong, v6)
  {
    hide View.ExportOf, StatesFollow, Acceptable, Skipped;
    if rules == [] {
      NoStates(wrong, v6);
    } else {
      StatesOfFollow(shareId, rules[..|rules| - 1], wrong, v6);
      StatesOneMore(NfsStatesOf(shareId, rules[..|rules| - 1], v6), rules, wrong, v6);
      Judged(shareId, rules[|rules| - 1], v6);
    }
  }

  lemma Judged(shareId: string, rule: Rule, v6: Ipv6Test)
    ensures Skipped(rule, v6) <==> rule.kind == "ip" && v6(rule.to)
    ensures Acceptable(rule, v6) ==> rule.kind == "ip" && !Skipped(rule, v6)
    ensures View.ExportOf(shareId, rule, v6).Some? <==> Acceptable(rule, v6)
  {
    AddressInFull(rule, v6);
    ExportNeedsIpv4(shareId, rule, v6);
    hide View.ExportOf, View.AddressOf;
  }

  /** What holds of the state a fault-free call leaves. */
  lemma ViewInFull(st: State, st': State, share: Share, apply: seq<Rule>, delete: seq<Rule>, fullSync: bool, v6: Ipv6Test)
    requires WellFormed(st') && UniquePerms(st, share.fsName) && UniquePerms(st', share.fsName) && (fullSync ==> delete == [])
    ensures ExportsOf(st', share.fsName) == CallView(ExportsOf(st, share.fsName), share.id, apply, delete, fullSync, v6) ==>
      && AllAllowed(st', share, apply, delete, v6) && GroupsGone(st, st', share, apply, delete, fullSync)
      && (fullSync ==> NoStalePermission(st', share, apply))
  {
    hide WellFormed, ExportsOf, UniquePerms, View.Applied, View.Removed, View.Without, View.Stale, AllAllowed, GroupsGone, NoStalePermission;
    if ExportsOf(st', share.fsName) == CallView(ExportsOf(st, share.fsName), share.id, apply, delete, fullSync, v6) {
      CallAllows(st', ExportsOf(st, share.fsName), share, apply, delete, fullSync, v6);
      CallTakesGroups(st, st', share, apply, delete, fullSync, v6);
    }
  }

  // ---- runs of calls on the cluster ----

  /** What a full sync does to a cluster with one permission per group on the filesystem. */
  ghost predicate Syncs(st: State, st': State, share: Share, rules: seq<Rule>, v6: Ipv6Test)
  {
    && UniquePerms(st', share.fsName)
    && ExportsOf(st', share.fsName) == View.Synced(ExportsOf(st, share.fsName), share.id, rules, v6)
  }

  /** What an incremental call does to it. */
  ghost predicate Performs(st: State, st': State, share: Share, d: Delta, v6: Ipv6Test)
  {
    && UniquePerms(st', share.fsName)
    && ExportsOf(st', share.fsName) == View.SteppedView(ExportsOf(st, share.fsName), share.id, d, v6)
  }

  /** What others do to it: nothing to the filesystem's permissions, nor to groups with the share's prefix. */
  ghost predicate Elsewhere(st: State, st': State, share: Share)
  {
    && PermTable(st', share.fsName) == PermTable(st, share.fsName)
    && View.Own(ExportsOf(st', share.fsName), share.id) == View.Own(ExportsOf(st, share.fsName), share.id)
  }

  /** Calls for a share on another filesystem are like that, as long as they touch no group with
      the share's prefix that there is. */
  lemma OthersAreElsewhere(st: State, st': State, share: Share, fs: string, touched: string -> bool)
    requires WellFormed(st) && Within(st, st', fs, touched) && fs != share.fsName
    requires forall g | g in st.groups && Text.StartsWith(st.groups[g].name, GroupPrefix(share.id)) :: !touched(st.groups[g].name)
    requires forall g | g in st'.groups && Text.StartsWith(st'.groups[g].name, GroupPrefix(share.id)) :: !touched(st'.groups[g].name)
    ensures Elsewhere(st, st', share)
  {
    hide WellFormed, ExportsOf, PermTable, Within, GroupPrefix, Text.StartsWith, View.Own;
    OtherPerms(st, st', share.fsName, fs, touched);
    SamePermTable(st, st', share.fsName);
    forall n | Text.StartsWith(n, GroupPrefix(share.id))
      ensures SameGroup(ExportsOf(st, share.fsName), ExportsOf(st', share.fsName), n)
    {
      GroupSeen(st, st', fs, touched, share.fsName, n);
    }
    View.SameOwn(ExportsOf(st, share.fsName), ExportsOf(st', share.fsName), share.id);
  }

  predicate SameGroup(v: View.Exports, v': View.Exports, n: string)
  {
    (n in v.groups <==> n in v'.groups) && (n in v.groups ==> v'.groups[n] == v.groups[n])
  }

  lemma GroupSeen(st: State, st': State, fs: string, touched: string -> bool, seen: string, n: string)
    requires WellFormed(st) && Within(st, st', fs, touched)
    requires forall g | g in st.groups && st.groups[g].name == n :: !touched(n)
    requires forall g | g in st'.groups && st'.groups[g].name == n :: !touched(n)
    ensures SameGroup(ExportsOf(st, seen), ExportsOf(st', seen), n)
  {
    hide WellFormed, ExportsOf, Within, GroupUid, AddressesOf;
    WithinWellFormed(st, st', fs, touched);
    GroupLookupView(st, seen, n);
    GroupLookupView(st', seen, n);
    GroupStays(st, st', fs, touched, n);
  }

  lemma OtherPerms(st: State, st': State, fs: string, other: string, touched: string -> bool)
    requires Within(st, st', other, touched) && fs != other
    ensures PermTable(st', fs) == PermTable(st, fs)
  {
    hide WellFormed;
  }

  /** A group none of whose bearers is touched is found again. */
  lemma GroupStays(st: State, st': State, fs: string, touched: string -> bool, n: string)
    requires WellFormed(st) && WellFormed(st') && Within(st, st', fs, touched)
    requires forall g | g in st.groups && st.groups[g].name == n :: !touched(n)
    requires forall g | g in st'.groups && st'.groups[g].name == n :: !touched(n)
    ensures GroupUid(st', n) == GroupUid(st, n)
    ensures GroupUid(st, n).Some? ==> var g := GroupUid(st, n).value; g in st.groups && g in st'.groups && st'.groups[g] == st.groups[g]
  {
    if GroupUid(st, n).Some? {
      GroupIs(st', n, GroupUid(st, n).value);
    } else if GroupUid(st', n).Some? {
      GroupIs(st, n, GroupUid(st', n).value);
    }
  }

  /** A history of the cluster: calls for the share, and None for whatever others do. */
  ghost predicate IsHistory(states: seq<State>, events: seq<Option<Delta>>, share: Share, v6: Ipv6Test)
  {
    && |states| == |events| + 1
    && forall i | 0 <= i < |events| ::
         match events[i]
         case Some(d) => Performs(states[i], states[i + 1], share, d, v6)
         case None => Elsewhere(states[i], states[i + 1], share)
  }

  lemma {:induction false} HistoryIsRun(states: seq<State>, events: seq<Option<Delta>>, share: Share, v6: Ipv6Test)
    requires IsHistory(states, events, share, v6)
    ensures View.Own(ExportsOf(states[|events|], share.fsName), share.id) ==
            View.Run(View.Own(ExportsOf(states[0], share.fsName), share.id), share.id, Calls(events), v6)
    decreases |events|
  {
    hide ExportsOf, UniquePerms, View.SteppedView, View.Own, PermTable;
    if events != [] {
      HistoryIsRun(states[1..], events[1..], share, v6);
      if events[0].Some? {
        View.OwnSteps(ExportsOf(states[0], share.fsName), share.id, events[0].value, v6);
        assert Calls(events)[0] == events[0].value && Calls(events)[1..] == Calls(events[1..]);
      } else {
        assert Calls(events) == Calls(events[1..]);
      }
    }
  }

  /** From a cluster on which the share has no export yet, any history of calls for it, whatever
      others do in between, leaves the filesystem's permissions and the share's client groups as one
      full sync on the resulting rules would have left them. */
  lemma HistoryRefinesFullSync(states: seq<State>, events: seq<Option<Delta>>, synced: State, share: Share, final: seq<Rule>, v6: Ipv6Test)
    requires |states| == |events| + 1
    requires View.ForeignTo(ExportsOf(states[0], share.fsName), share.id) && Prefix8(Text.Take(share.id, 8))
    requires View.LegalCalls(ExportsOf(states[0], share.fsName), share.id, map[], Calls(events))
    requires Lists(final, FinalRules(map[], Calls(events)))
    requires IsHistory(states, events, share, v6) && Syncs(states[0], synced, share, final, v6)
    ensures View.Own(ExportsOf(states[|events|], share.fsName), share.id) == View.Own(ExportsOf(synced, share.fsName), share.id)
  {
    hide ExportsOf, UniquePerms, View.ForeignTo, View.LegalCalls, Lists, IsHistory, Prefix8, View.Own, View.Synced;
    var v := ExportsOf(states[0], share.fsName);
    HistoryIsRun(states, events, share, v6);
    View.OwnIsForeign(v, share.id, Calls(events));
    View.RunRefinesFullSync(View.Own(v, share.id), share.id, Calls(events), final, v6);
    View.OwnSyncs(v, share.id, final, v6);
  }
}
