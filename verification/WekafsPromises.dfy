/** What update_access promises of a WEKAFS share, in the cluster's own terms: which policy, by
    name, lists which address, for rules as Manila spells them. */
module WekafsPromises {
  import opened Results
  import opened Rules
  import opened Cluster
  import opened AccessView
  import opened RuleMaps
  import opened Wekafs
  import opened WekafsAccess
  import Net
  import Text

  // ---- the terms ----

  /** A share's policy: "-rw" or "-ro". */
  function OwnPolicy(share: Share, suffix: string): string
  {
    "manila-" + (if |share.id| <= 8 then share.id else share.id[..8]) + suffix
  }

  /** The rule is one of an IPv4 address or network, and this is how policies write it. */
  predicate Addresses(rule: Rule, ip: string, v6: Ipv6Test)
  {
    rule.kind == "ip" && !v6(rule.to) && Net.PolicyIp(rule.to) == Some(ip)
  }

  ghost predicate InPolicy(st: State, name: string, ip: string)
  {
    exists u :: u in st.policies && st.policies[u].name == name && ip in st.policies[u].ips
  }

  ghost predicate AttachedTo(st: State, name: string, fsName: string)
  {
    exists u, f :: u in st.policies && st.policies[u].name == name && (f, u) in st.attached &&
                   f in st.filesystems && st.filesystems[f].name == fsName
  }

  /** The address is admitted at the rule's level, by a policy that is attached, and not at the other. */
  ghost predicate Admitted(st: State, share: Share, rule: Rule, ip: string)
  {
    if rule.level == "rw" then
      && InPolicy(st, OwnPolicy(share, "-rw"), ip) && AttachedTo(st, OwnPolicy(share, "-rw"), share.fsName)
      && !InPolicy(st, OwnPolicy(share, "-ro"), ip)
    else
      && InPolicy(st, OwnPolicy(share, "-ro"), ip) && AttachedTo(st, OwnPolicy(share, "-ro"), share.fsName)
      && !InPolicy(st, OwnPolicy(share, "-rw"), ip)
  }

  ghost predicate HasFs(st: State, share: Share)
  {
    exists f :: f in st.filesystems && st.filesystems[f].name == share.fsName
  }

  /** Rule k is the last of the rules to give its address. */
  ghost predicate LastFor(rules: seq<Rule>, k: int, ip: string, v6: Ipv6Test)
  {
    0 <= k < |rules| && Addresses(rules[k], ip, v6) && forall j | k < j < |rules| :: !Addresses(rules[j], ip, v6)
  }

  // ---- the promises ----

  /** Every rule reported active has its address admitted, unless a later rule of the call has the
      same id or address, or a deletion the same address. */
  ghost predicate ActiveHonoured(st: State, share: Share, apply: seq<Rule>, delete: seq<Rule>, states: States, v6: Ipv6Test)
  {
    forall k, ip | LastFor(apply, k, ip, v6) && apply[k].id in states && states[apply[k].id].Active? &&
                   (forall j | k < j < |apply| :: apply[j].id != apply[k].id) && (forall d | d in delete :: !Addresses(d, ip, v6)) ::
      Admitted(st, share, apply[k], ip)
  }

  /** Every well-formed rule has, unless a later rule or a deletion has the same address; and no
      deleted address is left at either level. */
  ghost predicate AllHonoured(st: State, share: Share, apply: seq<Rule>, delete: seq<Rule>, v6: Ipv6Test)
  {
    && (forall k, ip | LastFor(apply, k, ip, v6) && forall d | d in delete :: !Addresses(d, ip, v6) ::
          Admitted(st, share, apply[k], ip))
    && (forall d, ip | d in delete && Addresses(d, ip, v6) ::
          !InPolicy(st, OwnPolicy(share, "-rw"), ip) && !InPolicy(st, OwnPolicy(share, "-ro"), ip))
  }

  /** Whatever address a policy of the share lists is that of a rule of its level, the last one to
      give it; and a policy that lists none does not exist. */
  ghost predicate NothingElse(st: State, share: Share, rules: seq<Rule>, v6: Ipv6Test)
  {
    && (forall ip | InPolicy(st, OwnPolicy(share, "-rw"), ip) :: exists k :: LastFor(rules, k, ip, v6) && rules[k].level == "rw")
    && (forall ip | InPolicy(st, OwnPolicy(share, "-ro"), ip) :: exists k :: LastFor(rules, k, ip, v6) && rules[k].level != "rw")
    && (forall u | u in st.policies && st.policies[u].name in {OwnPolicy(share, "-rw"), OwnPolicy(share, "-ro")} ::
          st.policies[u].ips != [] && AttachedTo(st, st.policies[u].name, share.fsName))
  }

  /** One of the share's policies lists nothing. */
  ghost predicate HasEmpty(st: State, share: Share)
  {
    exists u :: u in st.policies && st.policies[u].name in {OwnPolicy(share, "-rw"), OwnPolicy(share, "-ro")} && st.policies[u].ips == []
  }

  /** A policy of the share that is new, or was so before, is read-write if it is the "-rw" one
      and read-only if it is the "-ro" one. */
  ghost predicate FlagsRight(st: State, st': State, share: Share)
  {
    && ((forall u | u in st.policies && st.policies[u].name == OwnPolicy(share, "-rw") :: !st.policies[u].readOnly) ==>
          forall u | u in st'.policies && st'.policies[u].name == OwnPolicy(share, "-rw") :: !st'.policies[u].readOnly)
    && ((forall u | u in st.policies && st.policies[u].name == OwnPolicy(share, "-ro") :: st.policies[u].readOnly) ==>
          forall u | u in st'.policies && st'.policies[u].name == OwnPolicy(share, "-ro") :: st'.policies[u].readOnly)
  }

  /** Everything but the users and the share's two policies is as before, and so are attachments
      of other policies. */
  ghost predicate OthersUntouched(st: State, st': State, share: Share)
  {
    var own := {OwnPolicy(share, "-rw"), OwnPolicy(share, "-ro")};
    && st'.filesystems == st.filesystems && st'.free == st.free && st'.groups == st.groups && st'.perms == st.perms
    && (forall u | u in st.policies && st.policies[u].name !in own :: u in st'.policies && st'.policies[u] == st.policies[u])
    && (forall u | u in st'.policies && st'.policies[u].name !in own :: u in st.policies)
    && (forall a: (Uid, Uid) | a.1 in st.policies && st.policies[a.1].name !in own :: a in st'.attached <==> a in st.attached)
  }

  /** The states reported: an error exactly for a malformed network. */
  ghost predicate StatesInFull(states: States, rules: seq<Rule>, v6: Ipv6Test)
  {
    StatesFollow(states, rules, (r: Rule) => r.kind == "ip" && Net.PolicyIp(r.to).None?, v6)
  }

  // ---- policies that stay ----

  ghost predicate SameAs(p: Policy, q: Policy)
  {
    p.name == q.name && p.readOnly == q.readOnly && forall x :: x in p.ips <==> x in q.ips
  }

  /** A policy of this content is there. */
  ghost predicate Has(st: State, p: Policy)
  {
    exists u :: u in st.policies && SameAs(p, st.policies[u])
  }

  lemma HasOwn(st: State, u: Uid)
    requires u in st.policies
    ensures Has(st, st.policies[u])
  {
    assert SameAs(st.policies[u], st.policies[u]);
  }

  /** Policies of names outside `own`, and their attachments to filesystems other than `gone`, are
      as before. */
  ghost predicate StayOutside(st: State, st': State, own: set<string>, gone: Option<Uid>)
  {
    && (forall u | u in st.policies && st.policies[u].name !in own :: Has(st', st.policies[u]))
    && (forall u | u in st'.policies && st'.policies[u].name !in own :: Has(st, st'.policies[u]))
    && (forall f: Uid, name: string | name !in own && Some(f) != gone :: Attaches(st', f, name) <==> Attaches(st, f, name))
  }

  ghost predicate OthersStay(st: State, st': State, share: Share, gone: Option<Uid>)
  {
    StayOutside(st, st', {OwnPolicy(share, "-rw"), OwnPolicy(share, "-ro")}, gone)
  }

  ghost predicate Attaches(st: State, f: Uid, name: string)
  {
    exists u :: u in st.policies && st.policies[u].name == name && (f, u) in st.attached
  }

  // ---- from views to these terms ----

  lemma OwnNamesInFull(share: Share)
    ensures PolicyName(share.id, RW) == OwnPolicy(share, "-rw") && PolicyName(share.id, RO) == OwnPolicy(share, "-ro")
  {
    assert "-" + "rw" == "-rw" && "-" + "ro" == "-ro";
    assert PolicyName(share.id, RW) == "manila-" + Text.Take(share.id, 8) + ("-" + "rw");
    assert PolicyName(share.id, RO) == "manila-" + Text.Take(share.id, 8) + ("-" + "ro");
  }

  lemma LevelInPolicy(st: State, fs: Option<Uid>, name: string)
    requires WellFormed(st)
    ensures var lv := LevelViewOf(st, fs, name);
      && (forall ip :: ip in lv.Ips() <==> InPolicy(st, name, ip))
      && (lv.Present? <==> exists u :: u in st.policies && st.policies[u].name == name)
      && (forall u | u in st.policies && st.policies[u].name == name ::
            lv == Present((set x | x in st.policies[u].ips), st.policies[u].readOnly, fs.Some? && (fs.value, u) in st.attached))
  {
    forall u | u in st.policies && st.policies[u].name == name
      ensures FindPolicy(st, name) == Some(u)
    {
      FindIs(st, name, u);
    }
    hide WellFormed;
  }

  lemma LevelAttached(st: State, f: Uid, name: string)
    requires WellFormed(st) && f in st.filesystems
    ensures LevelViewOf(st, Some(f), name).Present? && LevelViewOf(st, Some(f), name).attached ==>
      AttachedTo(st, name, st.filesystems[f].name)
  {
    hide WellFormed;
  }

  lemma GrantAddresses(rule: Rule, ip: string, v6: Ipv6Test)
    ensures Addresses(rule, ip, v6) <==> GrantOf(rule, v6) == Some(Binding(ip, if rule.level == "rw" then RW else RO))
    ensures Addresses(rule, ip, v6) <==> Names(Grants(v6), rule, ip)
  {
    hide Net.PolicyIp;
  }

  lemma GrantedIsAdmitted(st: State, share: Share, rule: Rule, ip: string)
    requires WellFormed(st) && FindFs(st, share.fsName).Some?
    requires Granted(ViewOf(st, share, FindFs(st, share.fsName)), Binding(ip, if rule.level == "rw" then RW else RO))
    ensures Admitted(st, share, rule, ip)
  {
    var f := FindFs(st, share.fsName);
    OwnNamesInFull(share);
    LevelInPolicy(st, f, OwnPolicy(share, "-rw"));
    LevelInPolicy(st, f, OwnPolicy(share, "-ro"));
    LevelAttached(st, f.value, OwnPolicy(share, "-rw"));
    LevelAttached(st, f.value, OwnPolicy(share, "-ro"));
    hide WellFormed, LevelViewOf, InPolicy, AttachedTo, PolicyName, OwnPolicy;
  }

  lemma ConfinedFlags(st: State, st': State, share: Share, fs: Option<Uid>)
    requires WellFormed(st) && Confined(st, st', share, fs)
    ensures FlagsRight(st, st', share)
  {
    OwnNamesInFull(share);
    LevelInPolicy(st, fs, OwnPolicy(share, "-rw"));
    LevelInPolicy(st, fs, OwnPolicy(share, "-ro"));
    LevelInPolicy(st', fs, OwnPolicy(share, "-rw"));
    LevelInPolicy(st', fs, OwnPolicy(share, "-ro"));
    hide WellFormed, LevelViewOf, InPolicy, PolicyName, OwnPolicy, SameExcept;
  }

  lemma ConfinedFrame(st: State, st': State, share: Share, fs: Option<Uid>)
    requires Confined(st, st', share, fs)
    ensures OthersUntouched(st, st', share)
  {
    OwnNamesInFull(share);
    hide WellFormed, LevelViewOf, PolicyName, OwnPolicy;
  }

  // ---- from rules to these terms ----

  /** The last rule to give an address decides its level. */
  lemma {:induction false} LastForDecides(rules: seq<Rule>, k: int, ip: string, v6: Ipv6Test)
    requires LastFor(rules, k, ip, v6)
    ensures ip in LastLevel(rules, v6) && LastLevel(rules, v6)[ip] == if rules[k].level == "rw" then RW else RO
  {
    hide Addresses, GrantOf;
    var n := |rules| - 1;
    if k == n {
      GrantAddresses(rules[k], ip, v6);
    } else {
      var front := rules[..n];
      assert LastFor(front, k, ip, v6);
      LastForDecides(front, k, ip, v6);
      assert !Addresses(rules[n], ip, v6);
      if GrantOf(rules[n], v6).Some? {
        GrantAddresses(rules[n], GrantOf(rules[n], v6).value.key, v6);
        GrantAddresses(rules[n], ip, v6);
      }
    }
  }

  /** Whatever address has a level has it from the last rule to give it. */
  lemma {:induction false} LastLevelIsLastFor(rules: seq<Rule>, ip: string, v6: Ipv6Test)
    requires ip in LastLevel(rules, v6)
    ensures exists k :: LastFor(rules, k, ip, v6) && LastLevel(rules, v6)[ip] == if rules[k].level == "rw" then RW else RO
  {
    hide Addresses, GrantOf;
    if rules != [] {
      var n := |rules| - 1;
      var front := rules[..n];
      GrantAddresses(rules[n], ip, v6);
      if Addresses(rules[n], ip, v6) {
        assert LastFor(rules, n, ip, v6);
      } else {
        LastLevelIsLastFor(front, ip, v6);
        var k :| LastFor(front, k, ip, v6) && LastLevel(front, v6)[ip] == if front[k].level == "rw" then RW else RO;
        assert LastFor(rules, k, ip, v6);
      }
    }
  }

  lemma AppliedHonours(v: View, rules: seq<Rule>, k: int, ip: string, v6: Ipv6Test)
    requires LastFor(rules, k, ip, v6)
    ensures Granted(Applied(v, rules, true, v6), Binding(ip, if rules[k].level == "rw" then RW else RO))
  {
    LastForDecides(rules, k, ip, v6);
    AppliedTracks(v, rules, v6);
    hide Applied, LastLevel, LastFor;
    var w, l := Applied(v, rules, true, v6), if rules[k].level == "rw" then RW else RO;
    assert ip in w.At(l).Ips() && ip !in w.At(l.Other()).Ips();
  }

  lemma {:induction false} RemovedKeeps(v: View, rules: seq<Rule>, g: Grant, v6: Ipv6Test)
    requires Granted(v, g) && forall d | d in rules :: !Names(Grants(v6), d, g.key)
    ensures Granted(Removed(v, rules, v6), g)
  {
    hide GrantOf;
    if rules != [] {
      RemovedKeeps(v, rules[..|rules| - 1], g, v6);
      assert !Names(Grants(v6), rules[|rules| - 1], g.key);
      RemoveOneKeeps(Removed(v, rules[..|rules| - 1], v6), rules[|rules| - 1], g, v6);
    }
  }

  lemma RemoveOneKeeps(v: View, rule: Rule, g: Grant, v6: Ipv6Test)
    requires Granted(v, g) && !Names(Grants(v6), rule, g.key)
    ensures Granted(RemoveOne(v, rule, v6), g)
  {
    hide GrantOf;
    if GrantOf(rule, v6).Some? {
      var ip, w := GrantOf(rule, v6).value.key, RemoveOne(v, rule, v6);
      assert w.At(g.value) == Drop(v.At(g.value), ip) && w.At(g.value.Other()) == Drop(v.At(g.value.Other()), ip);
      assert g.key in v.At(g.value).ips - {ip};
    }
  }

  lemma {:induction false} RemovedDrops(v: View, rules: seq<Rule>, i: nat, ip: string, v6: Ipv6Test)
    requires i < |rules| && Names(Grants(v6), rules[i], ip)
    ensures ip !in Removed(v, rules, v6).rw.Ips() && ip !in Removed(v, rules, v6).ro.Ips()
  {
    hide GrantOf;
    if i < |rules| - 1 {
      RemovedDrops(v, rules[..|rules| - 1], i, ip, v6);
    }
  }

  lemma PrunedKeeps(v: View, rules: seq<Rule>, k: int, ip: string, v6: Ipv6Test)
    requires LastFor(rules, k, ip, v6)
    ensures var g := Binding(ip, if rules[k].level == "rw" then RW else RO); Granted(v, g) ==> Granted(Pruned(v, rules, v6), g)
  {
    GrantAddresses(rules[k], ip, v6);
    hide GrantOf, Addresses;
    var l := if rules[k].level == "rw" then RW else RO;
    assert ip in Expected(rules, l, v6);
    hide Expected;
    assert Pruned(v, rules, v6).At(l) == Kept(v.At(l), Expected(rules, l, v6));
    assert Pruned(v, rules, v6).At(l.Other()) == Kept(v.At(l.Other()), Expected(rules, l.Other(), v6));
    if Granted(v, Binding(ip, l)) {
      assert ip in v.At(l).ips * Expected(rules, l, v6);
    }
  }

  // ---- what a fault-free call leaves ----

  /** Once the rules have been applied and the deletions made. */
  lemma CallHonours(st: State, v: View, share: Share, apply: seq<Rule>, delete: seq<Rule>, v6: Ipv6Test)
    requires WellFormed(st) && FindFs(st, share.fsName).Some?
    requires ViewOf(st, share, FindFs(st, share.fsName)) == Removed(Applied(v, apply, true, v6), delete, v6)
    ensures AllHonoured(st, share, apply, delete, v6)
  {
    LastForIsRuleIn(apply, v6);
    hide WellFormed, Applied, Removed, Admitted, LastFor, Addresses, InPolicy, ViewOf, Granted, GrantOf;
    var w := Applied(v, apply, true, v6);
    forall k, ip | 0 <= k < |apply| && LastFor(apply, k, ip, v6) && forall d | d in delete :: !Addresses(d, ip, v6)
      ensures Admitted(st, share, apply[k], ip)
    {
      AppliedHonours(v, apply, k, ip, v6);
      Unnamed(delete, ip, v6);
      RemovedKeeps(w, delete, Binding(ip, if apply[k].level == "rw" then RW else RO), v6);
      GrantedIsAdmitted(st, share, apply[k], ip);
    }
    forall d, ip | d in delete && Addresses(d, ip, v6)
      ensures !InPolicy(st, OwnPolicy(share, "-rw"), ip) && !InPolicy(st, OwnPolicy(share, "-ro"), ip)
    {
      var i :| 0 <= i < |delete| && delete[i] == d;
      GrantAddresses(d, ip, v6);
      RemovedDrops(w, delete, i, ip, v6);
      NotListed(st, share, ip);
    }
  }

  lemma LastForIsRuleIn(rules: seq<Rule>, v6: Ipv6Test)
    ensures forall k, ip | LastFor(rules, k, ip, v6) :: 0 <= k < |rules|
  {
  }

  lemma Unnamed(rules: seq<Rule>, ip: string, v6: Ipv6Test)
    requires forall d | d in rules :: !Addresses(d, ip, v6)
    ensures forall d | d in rules :: !Names(Grants(v6), d, ip)
  {
    hide Addresses, Names;
    forall d | d in rules
      ensures !Names(Grants(v6), d, ip)
    {
      GrantAddresses(d, ip, v6);
    }
  }

  lemma NotListed(st: State, share: Share, ip: string)
    requires WellFormed(st)
    ensures ip !in ViewOf(st, share, FindFs(st, share.fsName)).rw.Ips() ==> !InPolicy(st, OwnPolicy(share, "-rw"), ip)
    ensures ip !in ViewOf(st, share, FindFs(st, share.fsName)).ro.Ips() ==> !InPolicy(st, OwnPolicy(share, "-ro"), ip)
  {
    OwnNamesInFull(share);
    LevelInPolicy(st, FindFs(st, share.fsName), OwnPolicy(share, "-rw"));
    LevelInPolicy(st, FindFs(st, share.fsName), OwnPolicy(share, "-ro"));
    hide WellFormed, LevelViewOf, InPolicy, PolicyName, OwnPolicy;
  }

  /** And pruned. */
  lemma SyncHonours(st: State, v: View, share: Share, rules: seq<Rule>, v6: Ipv6Test)
    requires WellFormed(st) && FindFs(st, share.fsName).Some?
    requires ViewOf(st, share, FindFs(st, share.fsName)) == Synced(v, rules, true, v6)
    ensures AllHonoured(st, share, rules, [], v6)
  {
    LastForIsRuleIn(rules, v6);
    hide WellFormed, Applied, Pruned, Admitted, LastFor, Addresses, InPolicy, ViewOf, Granted;
    forall k, ip | 0 <= k < |rules| && LastFor(rules, k, ip, v6)
      ensures Admitted(st, share, rules[k], ip)
    {
      AppliedHonours(v, rules, k, ip, v6);
      PrunedKeeps(Applied(v, rules, true, v6), rules, k, ip, v6);
      GrantedIsAdmitted(st, share, rules[k], ip);
    }
  }

  lemma ExactIsNothingElse(st: State, share: Share, rules: seq<Rule>, v6: Ipv6Test)
    requires WellFormed(st) && FindFs(st, share.fsName).Some?
    requires Exact(ViewOf(st, share, FindFs(st, share.fsName)), LastLevel(rules, v6))
    ensures NothingElse(st, share, rules, v6)
  {
    var fs := FindFs(st, share.fsName);
    var rw, ro := OwnPolicy(share, "-rw"), OwnPolicy(share, "-ro");
    OwnNamesInFull(share);
    LevelInPolicy(st, fs, rw);
    LevelInPolicy(st, fs, ro);
    LevelAttached(st, fs.value, rw);
    LevelAttached(st, fs.value, ro);
    hide WellFormed, LevelViewOf, InPolicy, AttachedTo, PolicyName, OwnPolicy, LastFor, LastLevel;
    var v := ViewOf(st, share, fs);
    assert v.At(RW) == LevelViewOf(st, fs, rw) && v.At(RO) == LevelViewOf(st, fs, ro);
    forall ip | InPolicy(st, rw, ip) || InPolicy(st, ro, ip)
      ensures InPolicy(st, rw, ip) ==> exists k :: LastFor(rules, k, ip, v6) && rules[k].level == "rw"
      ensures InPolicy(st, ro, ip) ==> exists k :: LastFor(rules, k, ip, v6) && rules[k].level != "rw"
    {
      assert ip in LastLevel(rules, v6);
      LastLevelIsLastFor(rules, ip, v6);
      var k :| LastFor(rules, k, ip, v6) && LastLevel(rules, v6)[ip] == if rules[k].level == "rw" then RW else RO;
    }
  }

  lemma NoneListed(ips: seq<string>, listed: set<string>)
    requires forall x :: x in listed <==> x in ips
    ensures ips == [] <==> listed == {}
  {
    if ips != [] {
      assert ips[0] in listed;
    }
  }

  lemma EmptyInFull(st: State, share: Share)
    requires WellFormed(st)
    ensures HasEmpty(st, share) <==> !NoEmpty(ViewOf(st, share, FindFs(st, share.fsName)))
  {
    var fs, rw, ro := FindFs(st, share.fsName), OwnPolicy(share, "-rw"), OwnPolicy(share, "-ro");
    OwnNamesInFull(share);
    LevelInPolicy(st, fs, rw);
    LevelInPolicy(st, fs, ro);
    hide WellFormed, LevelViewOf, InPolicy, PolicyName, OwnPolicy;
    var v := ViewOf(st, share, fs);
    assert v.rw == LevelViewOf(st, fs, rw) && v.ro == LevelViewOf(st, fs, ro);
    forall u | u in st.policies && st.policies[u].name in {rw, ro}
      ensures st.policies[u].ips == [] <==> (if st.policies[u].name == rw then v.rw.ips else v.ro.ips) == {}
    {
      NoneListed(st.policies[u].ips, if st.policies[u].name == rw then v.rw.ips else v.ro.ips);
    }
  }

  /** Some rule names an address exactly if some rule grants one. */
  lemma SomeAddress(rules: seq<Rule>, v6: Ipv6Test)
    ensures (exists x, ip :: x in rules && Addresses(x, ip, v6)) <==> exists x | x in rules :: GrantOf(x, v6).Some?
  {
    hide GrantOf, Addresses;
    if x, ip :| x in rules && Addresses(x, ip, v6) {
      GrantAddresses(x, ip, v6);
    }
    if x :| x in rules && GrantOf(x, v6).Some? {
      GrantAddresses(x, GrantOf(x, v6).value.key, v6);
      GrantLevel(x, v6);
      assert Addresses(x, GrantOf(x, v6).value.key, v6);
    }
  }

  lemma GrantLevel(rule: Rule, v6: Ipv6Test)
    ensures GrantOf(rule, v6).Some? ==> GrantOf(rule, v6).value.value == if rule.level == "rw" then RW else RO
  {
    hide Net.PolicyIp;
  }

  /** Equal views of a name are one policy of the name. */
  lemma SameViewHas(st: State, st': State, name: string)
    requires WellFormed(st) && WellFormed(st') && LevelViewOf(st', None, name) == LevelViewOf(st, None, name)
    ensures forall u | u in st.policies && st.policies[u].name == name :: Has(st', st.policies[u])
  {
    LevelInPolicy(st, None, name);
    LevelInPolicy(st', None, name);
    hide WellFormed, LevelViewOf, InPolicy;
    forall u | u in st.policies && st.policies[u].name == name
      ensures Has(st', st.policies[u])
    {
      var w :| w in st'.policies && st'.policies[w].name == name;
      var lv := LevelViewOf(st, None, name);
      assert forall x :: x in lv.ips <==> x in st.policies[u].ips;
      assert forall x :: x in lv.ips <==> x in st'.policies[w].ips;
      assert SameAs(st.policies[u], st'.policies[w]);
    }
  }

  lemma ViewAttaches(st: State, f: Uid, name: string)
    requires WellFormed(st)
    ensures Attaches(st, f, name) <==> LevelViewOf(st, Some(f), name).Present? && LevelViewOf(st, Some(f), name).attached
  {
    LevelInPolicy(st, Some(f), name);
    hide WellFormed, LevelViewOf, InPolicy;
  }
}
