/** What update_access promises of an NFS share, in the cluster's own terms: client groups by
    name, the rules they hold, and permissions, for rules as Manila spells them. */
module NfsPromises {
  import opened Results
  import opened Rules
  import opened RuleMaps
  import opened Cluster
  import opened Tables
  import opened Nfs
  import View = NfsView
  import Net
  import Text

  // ---- the terms ----

  function IdPrefix(id: string): string
  {
    if |id| <= 8 then id else id[..8]
  }

  /** The client group of one rule of a share. */
  function OwnGroup(share: Share, rule: Rule): string
  {
    "manila-" + IdPrefix(share.id) + "-" + IdPrefix(rule.id)
  }

  /** An IPv4 rule whose network, if it has a slash, can be read. */
  predicate Acceptable(rule: Rule, v6: Ipv6Test)
  {
    rule.kind == "ip" && !v6(rule.to) && ('/' in rule.to ==> Net.Parse(rule.to).Some?)
  }

  /** The stored text denotes what the rule's does; one that denotes nothing is stored as a host. */
  predicate StoredFor(stored: string, to: string)
  {
    if Net.Parse(to).Some? then Net.Parse(stored) == Net.Parse(to) else stored == to + "/255.255.255.255"
  }

  ghost predicate GroupAdmits(st: State, name: string, to: string)
  {
    exists g, a :: g in st.groups && st.groups[g].name == name && a in st.groups[g].rules && StoredFor(st.groups[g].rules[a], to)
  }

  /** The rule's group admits its network and has a permission on the filesystem at its level. */
  ghost predicate Allowed(st: State, share: Share, rule: Rule)
  {
    && GroupAdmits(st, OwnGroup(share, rule), rule.to)
    && exists p :: p in st.perms && st.perms[p] == Permission(share.fsName, OwnGroup(share, rule), if rule.level == "rw" then "RW" else "RO")
  }

  /** Its group has no permission at another level. */
  ghost predicate OnlyAtLevel(st: State, share: Share, rule: Rule)
  {
    forall p | p in st.perms && st.perms[p].fs == share.fsName && st.perms[p].group == OwnGroup(share, rule) ::
      st.perms[p].kind == if rule.level == "rw" then "RW" else "RO"
  }

  /** No group has two permissions on the share's filesystem. */
  ghost predicate OnePerGroup(st: State, share: Share)
  {
    forall p, q | p in st.perms && q in st.perms && p != q && st.perms[p].fs == share.fsName && st.perms[q].fs == share.fsName ::
      st.perms[p].group != st.perms[q].group
  }

  /** A deletion takes every group whose name has the deleted rule's id prefix in it. */
  ghost predicate Spared(name: string, delete: seq<Rule>)
  {
    forall d | d in delete :: !exists a: string, b: string :: name == a + IdPrefix(d.id) + b
  }

  /** No later rule of the call shares the group of rule k, and no deletion takes it. */
  ghost predicate Stands(share: Share, apply: seq<Rule>, delete: seq<Rule>, k: int)
  {
    && 0 <= k < |apply| && Spared(OwnGroup(share, apply[k]), delete)
    && forall j | k < j < |apply| :: IdPrefix(apply[j].id) != IdPrefix(apply[k].id)
  }

  // ---- the promises ----

  /** Every rule reported active that stands is allowed; if no group had two permissions before and
      no other rule of the call shares its group, at its level only. */
  ghost predicate ActiveAllowed(st0: State, st: State, share: Share, apply: seq<Rule>, delete: seq<Rule>, states: States, v6: Ipv6Test)
  {
    forall k | Stands(share, apply, delete, k) && Acceptable(apply[k], v6) && apply[k].id in states && states[apply[k].id].Active? ::
      && Allowed(st, share, apply[k])
      && (OnePerGroup(st0, share) && (forall j | 0 <= j < k :: IdPrefix(apply[j].id) != IdPrefix(apply[k].id)) ==>
            OnlyAtLevel(st, share, apply[k]))
  }

  /** Every acceptable rule that stands is, at its level only; no permission on the filesystem is
      left that a deletion takes. */
  ghost predicate AllAllowed(st: State, share: Share, apply: seq<Rule>, delete: seq<Rule>, v6: Ipv6Test)
  {
    && OnePerGroup(st, share)
    && (forall k | Stands(share, apply, delete, k) && Acceptable(apply[k], v6) ::
          Allowed(st, share, apply[k]) && OnlyAtLevel(st, share, apply[k]))
    && (forall p | p in st.perms && st.perms[p].fs == share.fsName :: Spared(st.perms[p].group, delete))
  }

  /** The permissions on the filesystem whose groups have the share's prefix are of groups of the rules. */
  ghost predicate NoStalePermission(st: State, share: Share, rules: seq<Rule>)
  {
    forall p, b: string | p in st.perms && st.perms[p].fs == share.fsName && st.perms[p].group == "manila-" + IdPrefix(share.id) + "-" + b ::
      exists r :: r in rules && st.perms[p].group == OwnGroup(share, r)
  }

  /** A group that had a permission on the filesystem before is gone if a deletion takes it or, in a
      full sync, if it has the share's prefix and is of no rule. */
  ghost predicate GroupsGone(st0: State, st: State, share: Share, apply: seq<Rule>, delete: seq<Rule>, fullSync: bool)
  {
    forall g, p | g in st.groups && st.groups[g].name != "" && p in st0.perms && st0.perms[p].fs == share.fsName &&
                  st0.perms[p].group == st.groups[g].name ::
      var name := st.groups[g].name;
      && Spared(name, delete)
      && (fullSync && (exists b: string :: name == "manila-" + IdPrefix(share.id) + "-" + b) ==>
            exists r :: r in apply && name == OwnGroup(share, r))
  }

  /** Everything but the permissions on the share's filesystem and the groups that have its prefix
      or that a deletion takes is as before. */
  ghost predicate OthersUntouched(st: State, st': State, share: Share, delete: seq<Rule>)
  {
    && st'.users == st.users && st'.filesystems == st.filesystems && st'.free == st.free
    && st'.policies == st.policies && st'.attached == st.attached
    && (forall p | p in st.perms && (st.perms[p].fs != share.fsName || Foreign(st.perms[p].group, share, delete)) ::
          p in st'.perms && st'.perms[p] == st.perms[p])
    && (forall p | p in st'.perms && (st'.perms[p].fs != share.fsName || Foreign(st'.perms[p].group, share, delete)) :: p in st.perms)
    && (forall g | g in st.groups && Foreign(st.groups[g].name, share, delete) :: g in st'.groups && st'.groups[g] == st.groups[g])
    && (forall g | g in st'.groups && Foreign(st'.groups[g].name, share, delete) :: g in st.groups)
  }

  ghost predicate Foreign(name: string, share: Share, delete: seq<Rule>)
  {
    Spared(name, delete) && !exists b: string :: name == "manila-" + IdPrefix(share.id) + "-" + b
  }

  /** The states reported: active exactly for an acceptable rule. */
  ghost predicate StatesInFull(states: States, rules: seq<Rule>, v6: Ipv6Test)
  {
    StatesFollow(states, rules, (r: Rule) => !Acceptable(r, v6), v6)
  }

  // ---- from views to these terms ----

  lemma OwnGroupInFull(share: Share, rule: Rule)
    ensures GroupName(share.id, rule.id) == OwnGroup(share, rule)
    ensures GroupPrefix(share.id) == "manila-" + IdPrefix(share.id) + "-"
    ensures Text.Take(rule.id, 8) == IdPrefix(rule.id)
  {
  }

  lemma AddressInFull(rule: Rule, v6: Ipv6Test)
    ensures Ipv4(rule, v6) && View.AddressOf(rule.to).Some? <==> Acceptable(rule, v6)
  {
    Net.ToWekaExactly(rule.to);
    hide Net.Parse, Net.ToWeka, Net.Norm;
  }

  /** Whatever normalises to a rule's address denotes it. */
  lemma AddressDenotes(stored: string, to: string)
    requires View.AddressOf(to).Some? && Net.Norm(stored) == View.AddressOf(to).value
    ensures StoredFor(stored, to)
  {
    var weka := Net.ToWeka(to).value;
    var echo := Net.Echo(weka);
    Net.ToWekaExactly(to);
    SameNetwork(to);
    Net.NormDeterminesNetwork(stored, echo);
    if Net.Parse(to).None? {
      Net.NormOfMalformed(echo);
      Net.NormDeterminesNetwork(echo, stored);
      Net.NormOfMalformed(stored);
    }
  }

  lemma SameNetwork(to: string)
    requires Net.ToWeka(to).Some?
    ensures Net.Parse(Net.Echo(Net.ToWeka(to).value)) == Net.Parse(to)
    ensures Net.Parse(to).None? ==> Net.Echo(Net.ToWeka(to).value) == to + "/255.255.255.255"
  {
    Net.ToWekaExactly(to);
    hide Net.Parse, Net.Norm;
    if '/' in to {
      ToWekaHasSlash(to);
    } else {
      Net.EchoParses(to, Net.SPACE - 1);
    }
  }

  lemma ToWekaHasSlash(to: string)
    requires Net.ToWeka(to).Some? && '/' in to
    ensures '/' in Net.ToWeka(to).value
  {
    Net.ToWekaExactly(to);
    var a := Net.ShowAddress(Net.Parse(to).value.address);
    assert Net.ToWeka(to).value[|a|] == '/';
  }

  /** A group that holds a rule's address admits it. */
  lemma AddressAdmits(st: State, g: Uid, to: string)
    requires g in st.groups && View.AddressOf(to).Some? && View.AddressOf(to).value in AddressesOf(st.groups[g])
    ensures GroupAdmits(st, st.groups[g].name, to)
  {
    hide View.AddressOf, StoredFor, Net.Norm, Net.Parse;
    var a :| a in st.groups[g].rules && Net.Norm(st.groups[g].rules[a]) == View.AddressOf(to).value;
    AddressDenotes(st.groups[g].rules[a], to);
  }

  lemma KindInFull(rule: Rule)
    ensures View.KindOf(rule) == if rule.level == "rw" then "RW" else "RO"
  {
  }

  /** A rule in force, as views tell it. */
  lemma ExportedIsAllowed(st: State, share: Share, rule: Rule)
    requires WellFormed(st) && View.AddressOf(rule.to).Some?
    requires View.AddressOf(rule.to).value in View.Addresses(ExportsOf(st, share.fsName), GroupName(share.id, rule.id))
    requires exists u :: u in st.perms && st.perms[u] == Permission(share.fsName, GroupName(share.id, rule.id), View.KindOf(rule))
    ensures Allowed(st, share, rule)
  {
    OwnGroupInFull(share, rule);
    GroupLookup(st, OwnGroup(share, rule));
    hide View.AddressOf, WellFormed, ByKey, PermTable, GroupTable, AddressesOf, GroupAdmits, GroupName, OwnGroup;
    AddressAdmits(st, GroupUid(st, OwnGroup(share, rule)).value, rule.to);
  }

  lemma ExclusiveInFull(st: State, share: Share, rule: Rule)
    ensures Exclusive(st, share.fsName, GroupName(share.id, rule.id), View.KindOf(rule)) <==> OnlyAtLevel(st, share, rule)
  {
    OwnGroupInFull(share, rule);
    hide GroupName, OwnGroup;
    var t, name := PermTable(st, share.fsName), OwnGroup(share, rule);
    forall p
      ensures Carries(t, p, name) <==> p in st.perms && st.perms[p].fs == share.fsName && st.perms[p].group == name
      ensures Carries(t, p, name) ==> t[p].value == st.perms[p].kind
    {
    }
    hide PermTable;
  }

  lemma UniqueInFull(st: State, share: Share)
    ensures UniquePerms(st, share.fsName) <==> OnePerGroup(st, share)
  {
    var t := PermTable(st, share.fsName);
    forall p
      ensures p in t <==> p in st.perms && st.perms[p].fs == share.fsName
      ensures p in t ==> t[p].key == st.perms[p].group
    {
    }
    hide PermTable;
  }

  lemma PrefixInFull(name: string, share: Share)
    ensures Text.StartsWith(name, GroupPrefix(share.id)) <==> exists b: string :: name == "manila-" + IdPrefix(share.id) + "-" + b
  {
    Text.StartsWithIff(name, GroupPrefix(share.id));
    assert GroupPrefix(share.id) == "manila-" + IdPrefix(share.id) + "-";
  }

  lemma SparedInFull(name: string, delete: seq<Rule>)
    ensures Spared(name, delete) <==> forall d | d in delete :: !Text.Contains(name, Text.Take(d.id, 8))
  {
    forall d | d in delete
      ensures Text.Contains(name, Text.Take(d.id, 8)) <==> exists a: string, b: string :: name == a + IdPrefix(d.id) + b
    {
      Text.ContainsIff(name, Text.Take(d.id, 8));
      assert Text.Take(d.id, 8) == IdPrefix(d.id);
    }
    hide Text.Contains, Text.Take, IdPrefix;
  }

  // ---- what a fault-free call does to views ----

  /** A group that no deletion takes is left alone by all of them, and no other permission is left. */
  lemma {:induction false} RemovedSpares(v: View.Exports, delete: seq<Rule>, n: string)
    ensures var w := View.Removed(v, delete);
      && (n in w.perms ==> n in v.perms && w.perms[n] == v.perms[n])
      && ((forall d | d in delete :: !Text.Contains(n, Text.Take(d.id, 8))) ==>
            (n in w.perms <==> n in v.perms) && View.Addresses(w, n) == View.Addresses(v, n))
      && (n in w.perms ==> forall d | d in delete :: !Text.Contains(n, Text.Take(d.id, 8)))
  {
    hide Text.Contains, Text.Take;
    if delete != [] {
      var front, last := delete[..|delete| - 1], delete[|delete| - 1];
      RemovedSpares(v, front, n);
      assert delete == front + [last];
    }
  }

  /** The last rule of a group, if acceptable, has its export in the map the rules denote. */
  lemma {:induction false} LastExport(shareId: string, rules: seq<Rule>, k: int, v6: Ipv6Test)
    requires 0 <= k < |rules| && View.ExportOf(shareId, rules[k], v6).Some?
    requires forall j | k < j < |rules| :: GroupName(shareId, rules[j].id) != GroupName(shareId, rules[k].id)
    ensures var m, n := Overlay(map[], rules, View.ExportReading(shareId, v6)), GroupName(shareId, rules[k].id);
      n in m && m[n] == View.Export(View.AddressOf(rules[k].to).value, View.KindOf(rules[k]))
  {
    hide GroupName, View.AddressOf, View.KindOf;
    var n := |rules| - 1;
    if k < n {
      var front := rules[..n];
      assert front[k] == rules[k] && forall j | k < j < n :: front[j] == rules[j];
      LastExport(shareId, front, k, v6);
    }
  }

  /** Rule k after all have been applied, and after those of other groups have been taken. */
  lemma AppliedStands(v: View.Exports, shareId: string, rules: seq<Rule>, k: int, v6: Ipv6Test)
    requires 0 <= k < |rules| && View.ExportOf(shareId, rules[k], v6).Some?
    requires forall j | k < j < |rules| :: GroupName(shareId, rules[j].id) != GroupName(shareId, rules[k].id)
    ensures var w, n := View.Applied(v, shareId, rules, v6), GroupName(shareId, rules[k].id);
      && n in w.perms && w.perms[n] == View.KindOf(rules[k]) && View.AddressOf(rules[k].to).value in View.Addresses(w, n)
      && n !in View.Stale(w, shareId, rules)
  {
    LastExport(shareId, rules, k, v6);
    View.AppliedCovers(v, shareId, rules, v6);
    hide GroupName, View.AddressOf, View.KindOf, View.Applied, View.ExportOf, Overlay;
    assert View.NameReading(shareId)(rules[k]) == Some(Binding(GroupName(shareId, rules[k].id), ()));
  }

  /** A permission of the view is one of the cluster, and the only one of its group. */
  lemma ViewPermission(st: State, share: Share, n: string)
    requires UniquePerms(st, share.fsName)
    ensures n in ExportsOf(st, share.fsName).perms <==> exists p :: p in st.perms && st.perms[p].fs == share.fsName && st.perms[p].group == n
    ensures forall p | p in st.perms && st.perms[p].fs == share.fsName && st.perms[p].group == n ::
      n in ExportsOf(st, share.fsName).perms && st.perms[p].kind == ExportsOf(st, share.fsName).perms[n]
  {
    var t := PermTable(st, share.fsName);
    KeysAreCarried(t, n);
    forall p | p in st.perms && st.perms[p].fs == share.fsName && st.perms[p].group == n
      ensures Carries(t, p, n) && n in ByKey(t) && st.perms[p].kind == ByKey(t)[n]
    {
      Lookup(t, p);
    }
    if p :| Carries(t, p, n) {
      assert p in st.perms && st.perms[p].fs == share.fsName && st.perms[p].group == n;
    }
  }

  // ---- what a fault-free call leaves ----

  ghost function CallView(v: View.Exports, shareId: string, apply: seq<Rule>, delete: seq<Rule>, fullSync: bool, v6: Ipv6Test): View.Exports
  {
    var w := View.Removed(View.Applied(v, shareId, apply, v6), delete);
    if fullSync then View.Without(w, View.Stale(w, shareId, apply)) else w
  }

  lemma CallStands(v: View.Exports, shareId: string, apply: seq<Rule>, delete: seq<Rule>, fullSync: bool, k: int, v6: Ipv6Test)
    requires 0 <= k < |apply| && View.ExportOf(shareId, apply[k], v6).Some? && (fullSync ==> delete == [])
    requires forall j | k < j < |apply| :: GroupName(shareId, apply[j].id) != GroupName(shareId, apply[k].id)
    requires forall d | d in delete :: !Text.Contains(GroupName(shareId, apply[k].id), Text.Take(d.id, 8))
    ensures var w, n := CallView(v, shareId, apply, delete, fullSync, v6), GroupName(shareId, apply[k].id);
      n in w.perms && w.perms[n] == View.KindOf(apply[k]) && View.AddressOf(apply[k].to).value in View.Addresses(w, n)
  {
    hide View.AddressOf, View.KindOf, View.Applied, View.ExportOf, View.Stale, View.Removed, GroupName, Text.Contains, Text.Take;
    AppliedStands(v, shareId, apply, k, v6);
    var a := View.Applied(v, shareId, apply, v6);
    RemovedSpares(a, delete, GroupName(shareId, apply[k].id));
    if fullSync {
      RemovedNone(a);
    }
  }

  lemma RemovedNone(v: View.Exports)
    ensures View.Removed(v, []) == v
  {
  }

  lemma RuleAllowed(st: State, v: View.Exports, share: Share, apply: seq<Rule>, delete: seq<Rule>, fullSync: bool, k: int, v6: Ipv6Test)
    requires WellFormed(st) && UniquePerms(st, share.fsName) && (fullSync ==> delete == [])
    requires Stands(share, apply, delete, k) && Acceptable(apply[k], v6)
    ensures ExportsOf(st, share.fsName) == CallView(v, share.id, apply, delete, fullSync, v6) ==>
      Allowed(st, share, apply[k]) && OnlyAtLevel(st, share, apply[k])
  {
    var rule := apply[k];
    AddressInFull(rule, v6);
    SparedInFull(OwnGroup(share, rule), delete);
    forall j | k <= j < |apply|
      ensures GroupName(share.id, apply[j].id) == OwnGroup(share, apply[j])
      ensures j > k ==> GroupName(share.id, apply[j].id) != GroupName(share.id, rule.id)
    {
      OwnGroupInFull(share, apply[j]);
      OwnGroupInFull(share, rule);
      GroupNameInjective(share.id, apply[j].id, rule.id);
    }
    hide WellFormed, ExportsOf, UniquePerms, GroupName, OwnGroup, View.AddressOf, View.KindOf, Acceptable, CallView, Text.Contains, Spared, Text.Take;
    CallStands(v, share.id, apply, delete, fullSync, k, v6);
    ViewPermission(st, share, OwnGroup(share, rule));
    KindInFull(rule);
    if ExportsOf(st, share.fsName) == CallView(v, share.id, apply, delete, fullSync, v6) {
      var p :| p in st.perms && st.perms[p].fs == share.fsName && st.perms[p].group == OwnGroup(share, rule);
      assert st.perms[p] == Permission(share.fsName, OwnGroup(share, rule), View.KindOf(rule));
      ExportedIsAllowed(st, share, rule);
    }
  }

  /** What a fault-free call leaves from a start with at most one permission per group. */
  lemma CallAllows(st: State, v: View.Exports, share: Share, apply: seq<Rule>, delete: seq<Rule>, fullSync: bool, v6: Ipv6Test)
    requires WellFormed(st) && UniquePerms(st, share.fsName) && (fullSync ==> delete == [])
    requires ExportsOf(st, share.fsName) == CallView(v, share.id, apply, delete, fullSync, v6)
    ensures AllAllowed(st, share, apply, delete, v6)
    ensures fullSync ==> NoStalePermission(st, share, apply)
  {
    UniqueInFull(st, share);
    hide WellFormed, ExportsOf, UniquePerms, OwnGroup, Acceptable, CallView, Spared, Allowed, OnlyAtLevel, OnePerGroup, IdPrefix;
    forall k | 0 <= k < |apply| && Stands(share, apply, delete, k) && Acceptable(apply[k], v6)
      ensures Allowed(st, share, apply[k]) && OnlyAtLevel(st, share, apply[k])
    {
      RuleAllowed(st, v, share, apply, delete, fullSync, k, v6);
    }
    forall p | p in st.perms && st.perms[p].fs == share.fsName
      ensures Spared(st.perms[p].group, delete)
    {
      PermissionSpared(st, v, share, apply, delete, fullSync, p, v6);
    }
    if fullSync {
      PermissionsNotStale(st, v, share, apply, v6);
    }
  }

  lemma PermissionsNotStale(st: State, v: View.Exports, share: Share, apply: seq<Rule>, v6: Ipv6Test)
    requires UniquePerms(st, share.fsName)
    requires ExportsOf(st, share.fsName) == CallView(v, share.id, apply, [], true, v6)
    ensures NoStalePermission(st, share, apply)
  {
    hide ExportsOf, UniquePerms, OwnGroup, CallView;
    forall p, b: string | p in st.perms && st.perms[p].fs == share.fsName && st.perms[p].group == "manila-" + IdPrefix(share.id) + "-" + b
      ensures exists r :: r in apply && st.perms[p].group == OwnGroup(share, r)
    {
      PrefixInFull(st.perms[p].group, share);
      PermissionNotStale(st, v, share, apply, p, v6);
    }
  }

  lemma PermissionSpared(st: State, v: View.Exports, share: Share, apply: seq<Rule>, delete: seq<Rule>, fullSync: bool, p: Uid, v6: Ipv6Test)
    requires UniquePerms(st, share.fsName) && (fullSync ==> delete == [])
    requires ExportsOf(st, share.fsName) == CallView(v, share.id, apply, delete, fullSync, v6)
    requires p in st.perms && st.perms[p].fs == share.fsName
    ensures Spared(st.perms[p].group, delete)
  {
    var n := st.perms[p].group;
    SparedInFull(n, delete);
    hide ExportsOf, UniquePerms, View.Applied, View.Removed, View.Stale, Text.Contains, Spared, Text.Take;
    ViewPermission(st, share, n);
    RemovedSpares(View.Applied(v, share.id, apply, v6), delete, n);
  }

  lemma PermissionNotStale(st: State, v: View.Exports, share: Share, apply: seq<Rule>, p: Uid, v6: Ipv6Test)
    requires UniquePerms(st, share.fsName)
    requires ExportsOf(st, share.fsName) == CallView(v, share.id, apply, [], true, v6)
    requires p in st.perms && st.perms[p].fs == share.fsName
    requires Text.StartsWith(st.perms[p].group, GroupPrefix(share.id))
    ensures exists r :: r in apply && st.perms[p].group == OwnGroup(share, r)
  {
    var n := st.perms[p].group;
    hide ExportsOf, UniquePerms, View.Applied, View.Removed, Text.StartsWith, GroupPrefix, GroupName, OwnGroup;
    ViewPermission(st, share, n);
    assert n in Keys(View.NameReading(share.id), apply);
    var r :| r in apply && GroupName(share.id, r.id) == n;
    OwnGroupInFull(share, r);
  }

  /** A group with a permission goes with it. */
  lemma {:induction false} RemovedTakesGroups(v: View.Exports, delete: seq<Rule>, n: string)
    requires n != "" && n in v.perms
    ensures n in View.Removed(v, delete).groups ==> forall d | d in delete :: !Text.Contains(n, Text.Take(d.id, 8))
  {
    hide Text.Contains, Text.Take;
    if delete != [] {
      var front, last := delete[..|delete| - 1], delete[|delete| - 1];
      assert delete == front + [last];
      RemovedTakesGroups(v, front, n);
      RemovedSpares(v, front, n);
    }
  }

  lemma AppliedKeepsPermissions(v: View.Exports, shareId: string, rules: seq<Rule>, n: string, v6: Ipv6Test)
    requires n in v.perms
    ensures n in View.Applied(v, shareId, rules, v6).perms
  {
    View.AppliedCovers(v, shareId, rules, v6);
    hide View.Applied, View.ExportOf, Overlay;
  }

  lemma CallTakesGroups(st0: State, st: State, share: Share, apply: seq<Rule>, delete: seq<Rule>, fullSync: bool, v6: Ipv6Test)
    requires WellFormed(st) && UniquePerms(st0, share.fsName) && (fullSync ==> delete == [])
    requires ExportsOf(st, share.fsName) == CallView(ExportsOf(st0, share.fsName), share.id, apply, delete, fullSync, v6)
    ensures GroupsGone(st0, st, share, apply, delete, fullSync)
  {
    hide WellFormed, ExportsOf, UniquePerms, OwnGroup, CallView, Spared, IdPrefix, Text.StartsWith, GroupPrefix;
    forall g, p | g in st.groups && st.groups[g].name != "" && p in st0.perms && st0.perms[p].fs == share.fsName &&
                  st0.perms[p].group == st.groups[g].name
      ensures Spared(st.groups[g].name, delete)
      ensures fullSync && (exists b: string :: st.groups[g].name == "manila-" + IdPrefix(share.id) + "-" + b) ==>
        exists r :: r in apply && st.groups[g].name == OwnGroup(share, r)
    {
      GroupSpared(st0, st, share, apply, delete, fullSync, g, p, v6);
      if fullSync && (exists b: string :: st.groups[g].name == "manila-" + IdPrefix(share.id) + "-" + b) {
        PrefixInFull(st.groups[g].name, share);
        GroupNotStale(st0, st, share, apply, g, p, v6);
      }
    }
  }

  lemma GroupInView(st: State, fs: string, g: Uid)
    requires WellFormed(st) && g in st.groups
    ensures st.groups[g].name in ExportsOf(st, fs).groups
  {
    GroupLookup(st, st.groups[g].name);
  }

  lemma GroupSpared(st0: State, st: State, share: Share, apply: seq<Rule>, delete: seq<Rule>, fullSync: bool, g: Uid, p: Uid, v6: Ipv6Test)
    requires WellFormed(st) && UniquePerms(st0, share.fsName) && (fullSync ==> delete == [])
    requires ExportsOf(st, share.fsName) == CallView(ExportsOf(st0, share.fsName), share.id, apply, delete, fullSync, v6)
    requires g in st.groups && st.groups[g].name != "" && p in st0.perms && st0.perms[p].fs == share.fsName && st0.perms[p].group == st.groups[g].name
    ensures Spared(st.groups[g].name, delete)
  {
    var n, v := st.groups[g].name, ExportsOf(st0, share.fsName);
    SparedInFull(n, delete);
    GroupInView(st, share.fsName, g);
    ViewPermission(st0, share, n);
    hide ExportsOf, UniquePerms, WellFormed, View.Applied, View.Removed, View.Stale, Text.Contains, Spared, Text.Take;
    AppliedKeepsPermissions(v, share.id, apply, n, v6);
    RemovedTakesGroups(View.Applied(v, share.id, apply, v6), delete, n);
  }

  lemma GroupNotStale(st0: State, st: State, share: Share, apply: seq<Rule>, g: Uid, p: Uid, v6: Ipv6Test)
    requires WellFormed(st) && UniquePerms(st0, share.fsName)
    requires ExportsOf(st, share.fsName) == CallView(ExportsOf(st0, share.fsName), share.id, apply, [], true, v6)
    requires g in st.groups && st.groups[g].name != "" && p in st0.perms && st0.perms[p].fs == share.fsName && st0.perms[p].group == st.groups[g].name
    requires Text.StartsWith(st.groups[g].name, GroupPrefix(share.id))
    ensures exists r :: r in apply && st.groups[g].name == OwnGroup(share, r)
  {
    var n, v := st.groups[g].name, ExportsOf(st0, share.fsName);
    GroupInView(st, share.fsName, g);
    ViewPermission(st0, share, n);
    hide ExportsOf, UniquePerms, WellFormed, View.Applied, View.Removed, View.Stale, View.Without, Text.StartsWith, GroupPrefix, GroupName, OwnGroup, IdPrefix;
    AppliedKeepsPermissions(v, share.id, apply, n, v6);
    RemovedNone(View.Applied(v, share.id, apply, v6));
    StaleGoes(View.Applied(v, share.id, apply, v6), share.id, apply, n);
    var r :| r in apply && GroupName(share.id, r.id) == n;
    OwnGroupInFull(share, r);
  }

  lemma StaleGoes(v: View.Exports, shareId: string, rules: seq<Rule>, n: string)
    requires n != "" && n in v.perms && n in View.Without(v, View.Stale(v, shareId, rules)).groups
    requires Text.StartsWith(n, GroupPrefix(shareId))
    ensures n in Keys(View.NameReading(shareId), rules)
  {
    hide Keys, Text.StartsWith, GroupPrefix;
  }
}
