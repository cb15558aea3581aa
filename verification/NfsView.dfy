/** What NFS access means for one filesystem, as values: which client group has which
    permission, which addresses each group holds, and what rule updates do to them. */
module NfsView {
  import opened Results
  import opened Rules
  import opened RuleMaps
  import opened Text
  import Net

  /** A rule's normalised address and the permission type it asks for. */
  datatype Export = Export(address: string, kind: string)

  function KindOf(rule: Rule): string
  {
    if rule.level == "rw" then "RW" else "RO"
  }

  /** The normalised address a rule leaves in its group: what the driver writes, as the cluster
      echoes it. None is the ValueError of a malformed network. */
  function AddressOf(to: string): Option<string>
  {
    match Net.ToWeka(to)
    case None => None
    case Some(weka) => Some(Net.Norm(Net.Echo(weka)))
  }

  /** For a valid network or address that is its own normal form. */
  lemma AddressOfValid(to: string)
    ensures Net.Parse(to).Some? ==> AddressOf(to) == Some(Net.Norm(to))
  {
    if Net.Parse(to).Some? {
      Net.ParseIsCanonical(to);
      if '/' in to {
        Net.ShowMaskedParses(Net.Parse(to).value);
        Net.WekaFormNormalises(to);
        Net.EchoNormalises(Net.ToWeka(to).value);
      } else {
        Net.EchoNormalises(to);
      }
    }
  }

  /** What an IPv4 ip rule that is no malformed network denotes: its client group, address and
      permission type. */
  function ExportOf(shareId: string, rule: Rule, v6: Ipv6Test): Option<Binding<Export>>
  {
    if Ipv4(rule, v6) && AddressOf(rule.to).Some?
    then Some(Binding(GroupName(shareId, rule.id), Export(AddressOf(rule.to).value, KindOf(rule))))
    else None
  }

  function ExportReading(shareId: string, v6: Ipv6Test): Reading<Export>
  {
    (r: Rule) => ExportOf(shareId, r, v6)
  }

  /** Every rule owns a group name, whether or not it denotes an export. */
  function NameReading(shareId: string): Reading<()>
  {
    (r: Rule) => Some(Binding(GroupName(shareId, r.id), ()))
  }

  /** Permissions on one filesystem by group name, and all client groups by name. */
  datatype Exports = Exports(perms: map<string, string>, groups: map<string, set<string>>)

  function Addresses(v: Exports, group: string): set<string>
  {
    if group in v.groups then v.groups[group] else {}
  }

  // ---- the effect of fault-free operations ----

  function ApplyOne(v: Exports, b: Binding<Export>): Exports
  {
    Exports(v.perms[b.key := b.value.kind], v.groups[b.key := Addresses(v, b.key) + {b.value.address}])
  }

  /** Permissions and groups of the given names gone. A nameless group is never looked up. */
  function Without(v: Exports, names: set<string>): Exports
  {
    Exports(v.perms - names, v.groups - (names - {""}))
  }

  /** Names of permissions a deletion hits: those the rule's id prefix is part of. */
  function Hit(v: Exports, rule: Rule): set<string>
  {
    set n | n in v.perms && Contains(n, Take(rule.id, 8))
  }

  function Stale(v: Exports, shareId: string, rules: seq<Rule>): set<string>
  {
    set n | n in v.perms && StartsWith(n, GroupPrefix(shareId)) && n !in Keys(NameReading(shareId), rules)
  }

  function Applied(v: Exports, shareId: string, rules: seq<Rule>, v6: Ipv6Test): Exports
  {
    if rules == [] then v
    else
      var w := Applied(v, shareId, rules[..|rules| - 1], v6);
      match ExportOf(shareId, rules[|rules| - 1], v6)
      case None => w
      case Some(b) => ApplyOne(w, b)
  }

  function Removed(v: Exports, rules: seq<Rule>): Exports
  {
    if rules == [] then v
    else
      var w := Removed(v, rules[..|rules| - 1]);
      Without(w, Hit(w, rules[|rules| - 1]))
  }

  function Synced(v: Exports, shareId: string, rules: seq<Rule>, v6: Ipv6Test): Exports
  {
    var w := Applied(v, shareId, rules, v6);
    Without(w, Stale(w, shareId, rules))
  }

  function SteppedView(v: Exports, shareId: string, d: Delta, v6: Ipv6Test): Exports
  {
    Removed(Applied(v, shareId, d.add + d.update, v6), d.delete)
  }

  // ---- full sync ----

  /** Every export of the map is in force; other names are as they were, but for groups gaining addresses. */
  ghost predicate Covers(v: Exports, m: map<string, Export>, w: Exports)
  {
    && (forall n | n in m :: n in w.perms && w.perms[n] == m[n].kind && m[n].address in Addresses(w, n))
    && (forall n | n !in m :: (n in w.perms <==> n in v.perms) && (n in w.perms ==> w.perms[n] == v.perms[n]))
    && (forall n | n !in m :: (n in w.groups <==> n in v.groups) && (n in w.groups ==> w.groups[n] == v.groups[n]))
  }

  lemma {:induction false} AppliedCovers(v: Exports, shareId: string, rules: seq<Rule>, v6: Ipv6Test)
    ensures Covers(v, Overlay(map[], rules, ExportReading(shareId, v6)), Applied(v, shareId, rules, v6))
  {
    hide ExportOf;
    if rules == [] {
    } else {
      AppliedCovers(v, shareId, rules[..|rules| - 1], v6);
    }
  }

  /** A full sync gives every IPv4 ip rule its permission and address, whatever was there;
      leaves no permission with the share's prefix outside the given rules' names; and
      touches no name without the prefix. */
  lemma FullSyncExact(v: Exports, shareId: string, rules: seq<Rule>, v6: Ipv6Test)
    ensures var w, m := Synced(v, shareId, rules, v6), Overlay(map[], rules, ExportReading(shareId, v6));
      && (forall n | n in m :: n in w.perms && w.perms[n] == m[n].kind && m[n].address in Addresses(w, n))
      && (forall n | n in w.perms && StartsWith(n, GroupPrefix(shareId)) :: exists r | r in rules :: n == GroupName(shareId, r.id))
      && (forall n | !StartsWith(n, GroupPrefix(shareId)) ::
            && (n in w.perms <==> n in v.perms) && (n in w.perms ==> w.perms[n] == v.perms[n])
            && (n in w.groups <==> n in v.groups) && (n in w.groups ==> w.groups[n] == v.groups[n]))
  {
    hide GroupPrefix, StartsWith, GroupName;
    var read := ExportReading(shareId, v6);
    var m, a := Overlay(map[], rules, read), Applied(v, shareId, rules, v6);
    AppliedCovers(v, shareId, rules, v6);
    OverlayNames(map[], rules, read);
    var stale := Stale(a, shareId, rules);
    forall n | n in m
      ensures StartsWith(n, GroupPrefix(shareId)) && n !in stale
    {
      var r :| r in rules && Names(read, r, n);
      OwnPrefix(shareId, r.id);
      assert NameReading(shareId)(r) == Some(Binding(n, ()));
    }
    forall n | n in a.perms && n !in stale && StartsWith(n, GroupPrefix(shareId))
      ensures exists r | r in rules :: n == GroupName(shareId, r.id)
    {
      assert n in Keys(NameReading(shareId), rules);
    }
    forall n | !StartsWith(n, GroupPrefix(shareId))
      ensures n !in m && n !in stale
    {
    }
  }

  lemma OwnPrefix(shareId: string, accessId: string)
    ensures StartsWith(GroupName(shareId, accessId), GroupPrefix(shareId))
  {
  }

  /** With distinct id prefixes each rule gets its own permission type, not another's. */
  lemma DistinctPrefixesGetTheirOwn(shareId: string, rules: seq<Rule>, r: Rule, v6: Ipv6Test)
    requires r in rules && ExportOf(shareId, r, v6).Some?
    requires forall s | s in rules && Take(s.id, 8) == Take(r.id, 8) :: s == r
    ensures var m := Overlay(map[], rules, ExportReading(shareId, v6));
      GroupName(shareId, r.id) in m && m[GroupName(shareId, r.id)] == ExportOf(shareId, r, v6).value.value
  {
    hide GroupName;
    var read, n := ExportReading(shareId, v6), GroupName(shareId, r.id);
    OverlayNames(map[], rules, read);
    assert Names(read, r, n);
    OverlayValue(map[], rules, n, read);
    var s :| s in rules && read(s) == Some(Binding(n, Overlay(map[], rules, read)[n]));
    GroupNameInjective(shareId, s.id, r.id);
  }

  lemma {:induction false} AppliedAddresses(v: Exports, shareId: string, rules: seq<Rule>, v6: Ipv6Test, n: string, address: string)
    requires forall r | r in rules && Names(ExportReading(shareId, v6), r, n) :: ExportOf(shareId, r, v6).value.value.address == address
    ensures Addresses(Applied(v, shareId, rules, v6), n) ==
            Addresses(v, n) + if exists r | r in rules :: Names(ExportReading(shareId, v6), r, n) then {address} else {}
  {
    hide ExportOf;
    if rules != [] {
      var front, last := rules[..|rules| - 1], rules[|rules| - 1];
      assert forall r :: r in rules <==> r in front || r == last;
      AppliedAddresses(v, shareId, front, v6, n, address);
    }
  }

  /** A full sync does not look for stray addresses: a rule's group ends with the rule's address
      alone exactly if it held no other before. */
  lemma StrayAddressesStay(v: Exports, shareId: string, rules: seq<Rule>, r: Rule, v6: Ipv6Test)
    requires r in rules && ExportOf(shareId, r, v6).Some?
    requires forall s | s in rules && Take(s.id, 8) == Take(r.id, 8) :: s == r
    ensures var b := ExportOf(shareId, r, v6).value;
      Addresses(Synced(v, shareId, rules, v6), b.key) == {b.value.address} <==> Addresses(v, b.key) <= {b.value.address}
  {
    var b, read := ExportOf(shareId, r, v6).value, ExportReading(shareId, v6);
    forall s | s in rules && Names(read, s, b.key)
      ensures s == r
    {
      GroupNameInjective(shareId, s.id, r.id);
    }
    hide ExportOf, GroupName, GroupPrefix, StartsWith;
    assert Names(read, r, b.key);
    AppliedAddresses(v, shareId, rules, v6, b.key, b.value.address);
    var w := Applied(v, shareId, rules, v6);
    assert b.key !in Stale(w, shareId, rules) by {
      ExportHasPrefix(shareId, r, v6);
      assert NameReading(shareId)(r) == Some(Binding(b.key, ()));
    }
    assert Addresses(Synced(v, shareId, rules, v6), b.key) == Addresses(w, b.key);
  }

  /** Pruning is driven by permissions: a group of the share that no given rule names goes
      exactly if the filesystem has a permission for it. */
  lemma StrayGroupsGoWithPermissions(v: Exports, shareId: string, rules: seq<Rule>, n: string, v6: Ipv6Test)
    requires StartsWith(n, GroupPrefix(shareId)) && n !in Keys(NameReading(shareId), rules)
    ensures n in Synced(v, shareId, rules, v6).groups <==> n in v.groups && n !in v.perms
  {
    var read := ExportReading(shareId, v6);
    AppliedCovers(v, shareId, rules, v6);
    OverlayNames(map[], rules, read);
    forall r | r in rules
      ensures Names(read, r, n) ==> n in Keys(NameReading(shareId), rules)
    {
      NamedIsGiven(shareId, rules, r, n, v6);
    }
    assert n != "";
  }

  lemma NamedIsGiven(shareId: string, rules: seq<Rule>, r: Rule, n: string, v6: Ipv6Test)
    requires r in rules
    ensures Names(ExportReading(shareId, v6), r, n) ==> n in Keys(NameReading(shareId), rules)
  {
    if Names(ExportReading(shareId, v6), r, n) {
      ExportHasPrefix(shareId, r, v6);
      assert NameReading(shareId)(r) == Some(Binding(n, ()));
    }
  }

  // ---- incremental runs ----

  function Kinds(m: map<string, Export>): map<string, string>
  {
    map n | n in m :: m[n].kind
  }

  function Homes(m: map<string, Export>): map<string, set<string>>
  {
    map n | n in m :: {m[n].address}
  }

  lemma BindOne(m: map<string, Export>, b: Binding<Export>)
    ensures Kinds(m[b.key := b.value]) == Kinds(m)[b.key := b.value.kind]
    ensures Homes(m[b.key := b.value]) == Homes(m)[b.key := {b.value.address}]
  {
  }

  lemma UnbindOne(m: map<string, Export>, n: string)
    ensures Kinds(m - {n}) == Kinds(m) - {n} && Homes(m - {n}) == Homes(m) - {n}
  {
  }

  lemma BesideBase<V>(base: map<string, V>, m: map<string, V>, n: string, x: V)
    ensures (base + m)[n := x] == base + m[n := x]
    ensures n !in base ==> (base + m) - {n} == base + (m - {n})
  {
  }

  /** The view is the image of the export map beside foreign permissions and groups. */
  ghost predicate Image(v: Exports, base: Exports, m: map<string, Export>)
  {
    && v.perms == base.perms + Kinds(m)
    && v.groups == base.groups + Homes(m)
  }

  ghost predicate ForeignTo(base: Exports, shareId: string)
  {
    && (forall n | n in base.perms :: !StartsWith(n, GroupPrefix(shareId)))
    && (forall n | n in base.groups :: !StartsWith(n, GroupPrefix(shareId)))
  }

  /** The rule's id prefix identifies it: dash-free, not the share's, in no foreign name. */
  ghost predicate Telling(shareId: string, base: Exports, id: string)
  {
    && Prefix8(Take(id, 8)) && Take(id, 8) != Take(shareId, 8)
    && forall n | n in base.perms :: !Contains(n, Take(id, 8))
  }

  /** Every name in the map is the group name of some telling id. */
  ghost predicate OwnNames(shareId: string, m: map<string, Export>)
  {
    forall n | n in m :: exists id :: n == GroupName(shareId, id) && Prefix8(Take(id, 8))
  }

  /** Applying never gives a group a second address. */
  ghost predicate Agrees(m: map<string, Export>, rules: seq<Rule>, read: Reading<Export>)
  {
    && (forall r | r in rules && read(r).Some? && read(r).value.key in m ::
          m[read(r).value.key].address == read(r).value.value.address)
    && (forall r, s | r in rules && s in rules && read(r).Some? && read(s).Some? && read(r).value.key == read(s).value.key ::
          read(r).value.value.address == read(s).value.value.address)
  }

  lemma {:induction false} ApplyingKeepsImage(v: Exports, base: Exports, m: map<string, Export>, shareId: string,
                                              rules: seq<Rule>, v6: Ipv6Test)
    requires Image(v, base, m) && ForeignTo(base, shareId) && Agrees(m, rules, ExportReading(shareId, v6))
    ensures Image(Applied(v, shareId, rules, v6), base, Overlay(m, rules, ExportReading(shareId, v6)))
  {
    hide ExportOf, GroupPrefix, StartsWith;
    var read := ExportReading(shareId, v6);
    if rules == [] {
    } else {
      var front, last := rules[..|rules| - 1], rules[|rules| - 1];
      assert forall r | r in front :: r in rules;
      ApplyingKeepsImage(v, base, m, shareId, front, v6);
      if read(last).Some? {
        var b, m' := read(last).value, Overlay(m, front, read);
        assert b.key in m' ==> m'[b.key].address == b.value.address by {
          if b.key in m' {
            OverlayValue(m, front, b.key, read);
          }
        }
        assert !(b.key in base.groups) by {
          ExportHasPrefix(shareId, last, v6);
        }
        ApplyOneImage(Applied(v, shareId, front, v6), base, m', b);
      }
    }
  }

  lemma ExportHasPrefix(shareId: string, rule: Rule, v6: Ipv6Test)
    requires ExportOf(shareId, rule, v6).Some?
    ensures StartsWith(ExportOf(shareId, rule, v6).value.key, GroupPrefix(shareId))
    ensures ExportOf(shareId, rule, v6).value.key == GroupName(shareId, rule.id)
  {
    OwnPrefix(shareId, rule.id);
  }

  lemma ApplyOneImage(v: Exports, base: Exports, m: map<string, Export>, b: Binding<Export>)
    requires Image(v, base, m) && b.key !in base.groups
    requires b.key in m ==> m[b.key].address == b.value.address
    ensures Image(ApplyOne(v, b), base, m[b.key := b.value])
  {
    assert Addresses(v, b.key) + {b.value.address} == {b.value.address};
    BindOne(m, b);
    BesideBase(base.perms, Kinds(m), b.key, b.value.kind);
    BesideBase(base.groups, Homes(m), b.key, {b.value.address});
  }

  lemma {:induction false} RemovingKeepsImage(v: Exports, base: Exports, m: map<string, Export>, shareId: string,
                                              rules: seq<Rule>, v6: Ipv6Test)
    requires Image(v, base, m) && ForeignTo(base, shareId) && OwnNames(shareId, m) && Prefix8(Take(shareId, 8))
    requires forall r | r in rules :: Telling(shareId, base, r.id)
    requires forall r | r in rules && ExportOf(shareId, r, v6).None? :: GroupName(shareId, r.id) !in m
    ensures Image(Removed(v, rules), base, Withdrawn(m, rules, ExportReading(shareId, v6)))
  {
    hide ExportOf, GroupPrefix, StartsWith, GroupName, ForeignTo, Telling, Image, OwnNames;
    var read := ExportReading(shareId, v6);
    if rules == [] {
      assert Withdrawn(m, rules, read) == m;
    } else {
      var front, last := rules[..|rules| - 1], rules[|rules| - 1];
      assert last in rules && forall r | r in front :: r in rules;
      RemovingKeepsImage(v, base, m, shareId, front, v6);
      WithdrawnLast(m, rules, read);
      var m' := Withdrawn(m, front, read);
      OwnNamesShrink(shareId, m, m');
      RemoveOneImage(Removed(v, front), base, m', shareId, last);
      if read(last).Some? {
        ExportHasPrefix(shareId, last, v6);
      } else {
        assert m' - {GroupName(shareId, last.id)} == m';
      }
    }
  }

  lemma OwnNamesShrink(shareId: string, m: map<string, Export>, m': map<string, Export>)
    requires OwnNames(shareId, m) && m'.Keys <= m.Keys
    ensures OwnNames(shareId, m')
  {
  }

  /** Removal by substring hits the rule's own group and no other. */
  lemma RemoveOneImage(v: Exports, base: Exports, m: map<string, Export>, shareId: string, rule: Rule)
    requires Image(v, base, m) && ForeignTo(base, shareId) && OwnNames(shareId, m) && Prefix8(Take(shareId, 8))
    requires Telling(shareId, base, rule.id)
    ensures Image(Without(v, Hit(v, rule)), base, m - {GroupName(shareId, rule.id)})
  {
    var own, hit := GroupName(shareId, rule.id), Hit(v, rule);
    OwnIsForeignless(base, shareId, rule.id);
    forall n | n in m
      ensures n in hit <==> n == own
    {
      var id :| n == GroupName(shareId, id) && Prefix8(Take(id, 8));
      SubstringOfGroupName(shareId, id, rule.id);
      GroupNameInjective(shareId, id, rule.id);
    }
    assert hit == if own in m then {own} else {};
    assert own != "" by {
      assert own[0] == 'm';
    }
    DropName(v, base, m, own);
  }

  lemma DropName(v: Exports, base: Exports, m: map<string, Export>, own: string)
    requires Image(v, base, m) && own !in base.perms && own !in base.groups && own != ""
    ensures Image(Without(v, if own in m then {own} else {}), base, m - {own})
  {
    UnbindOne(m, own);
    BesideBase(base.perms, Kinds(m), own, "");
    BesideBase(base.groups, Homes(m), own, {});
    if own in m {
      assert {own} - {""} == {own};
    } else {
      assert Kinds(m) - {own} == Kinds(m) && Homes(m) - {own} == Homes(m);
    }
  }

  lemma OwnIsForeignless(base: Exports, shareId: string, id: string)
    requires ForeignTo(base, shareId)
    ensures GroupName(shareId, id) !in base.perms && GroupName(shareId, id) !in base.groups
  {
    OwnPrefix(shareId, id);
  }

  /** A call on rules whose id prefixes are telling and pairwise distinct. */
  ghost predicate LegalCall(base: Exports, shareId: string, rs: RuleSet, d: Delta)
  {
    && Legal(rs, d, NameReading(shareId))
    && (forall r | r in d.add + d.delete :: Telling(shareId, base, r.id))
  }

  ghost predicate AllTelling(base: Exports, shareId: string, rs: RuleSet)
  {
    forall i | i in rs :: Telling(shareId, base, i)
  }

  lemma NamesDistinctSoExports(rs: RuleSet, shareId: string, v6: Ipv6Test)
    requires Distinct(rs, NameReading(shareId))
    ensures Distinct(rs, ExportReading(shareId, v6))
  {
    hide GroupName, AddressOf;
    forall i, j | i in rs && j in rs && i != j && ExportOf(shareId, rs[i], v6).Some? && ExportOf(shareId, rs[j], v6).Some?
      ensures ExportOf(shareId, rs[i], v6).value.key != ExportOf(shareId, rs[j], v6).value.key
    {
      assert NameReading(shareId)(rs[i]).value.key == GroupName(shareId, rs[i].id);
      assert NameReading(shareId)(rs[j]).value.key == GroupName(shareId, rs[j].id);
    }
  }

  lemma ExportKeyIgnoresLevel(shareId: string, v6: Ipv6Test)
    ensures KeyIgnoresLevel(ExportReading(shareId, v6))
  {
    hide GroupName, AddressOf;
  }

  lemma DenotedNamesAreOwn(rs: RuleSet, m: map<string, Export>, base: Exports, shareId: string, v6: Ipv6Test)
    requires Denotes(rs, m, ExportReading(shareId, v6)) && Filed(rs) && AllTelling(base, shareId, rs)
    ensures OwnNames(shareId, m)
  {
    hide GroupName, AddressOf;
    var read := ExportReading(shareId, v6);
    forall n | n in m
      ensures exists id :: n == GroupName(shareId, id) && Prefix8(Take(id, 8))
    {
      var i :| i in rs && read(rs[i]) == Some(Binding(n, m[n]));
      assert n == GroupName(shareId, i) && Telling(shareId, base, i);
    }
  }

  /** Added and updated rules agree with the groups that are there. */
  lemma CallAgrees(rs: RuleSet, m: map<string, Export>, d: Delta, shareId: string, v6: Ipv6Test)
    requires Filed(rs) && Legal(rs, d, NameReading(shareId)) && Denotes(rs, m, ExportReading(shareId, v6))
    ensures Agrees(m, d.add + d.update, ExportReading(shareId, v6))
  {
    hide GroupName, AddressOf;
    var read, au := ExportReading(shareId, v6), d.add + d.update;
    forall r | r in au && read(r).Some? && read(r).value.key in m
      ensures m[read(r).value.key].address == read(r).value.value.address
    {
      var i :| i in rs && read(rs[i]) == Some(Binding(read(r).value.key, m[read(r).value.key]));
      SameNameSameRule(rs, d, shareId, r, i);
    }
    forall r, s | r in au && s in au && read(r).Some? && read(s).Some? && read(r).value.key == read(s).value.key
      ensures read(r).value.value.address == read(s).value.value.address
    {
      SameNameInCall(rs, d, shareId, r, s);
    }
  }

  lemma SameNameInCall(rs: RuleSet, d: Delta, shareId: string, r: Rule, s: Rule)
    requires Legal(rs, d, NameReading(shareId)) && r in d.add + d.update && s in d.add + d.update
    requires GroupName(shareId, r.id) == GroupName(shareId, s.id)
    ensures r == s
  {
    hide GroupName;
    var u := Upserted(rs, d.add + d.update);
    UpsertedSpec(rs, d.add + d.update);
    assert u[r.id] == r && u[s.id] == s;
    assert NameReading(shareId)(r).value.key == NameReading(shareId)(s).value.key;
  }

  /** A rule that shares its group name with a rule already there updates that rule. */
  lemma SameNameSameRule(rs: RuleSet, d: Delta, shareId: string, r: Rule, i: string)
    requires Filed(rs) && Legal(rs, d, NameReading(shareId)) && r in d.add + d.update && i in rs
    requires GroupName(shareId, r.id) == GroupName(shareId, i)
    ensures r.id == i && rs[i].kind == r.kind && rs[i].to == r.to
  {
    hide GroupName;
    var au := d.add + d.update;
    var u := Upserted(rs, au);
    UpsertedSpec(rs, au);
    assert u[r.id] == r;
    var read := NameReading(shareId);
    assert i in u;
    assert u[i].id == i by {
      if i in Ids(au) {
        var s :| s in au && s.id == i;
        assert u[s.id] == s;
      }
    }
    assert read(u[r.id]).value.key == read(u[i]).value.key;
  }

  /** One incremental call keeps the view the image of the rules. */
  lemma StepKeepsImage(v: Exports, base: Exports, rs: RuleSet, m: map<string, Export>, shareId: string, d: Delta, v6: Ipv6Test)
    requires Image(v, base, m) && ForeignTo(base, shareId) && Prefix8(Take(shareId, 8))
    requires Filed(rs) && AllTelling(base, shareId, rs) && Denotes(rs, m, ExportReading(shareId, v6)) && LegalCall(base, shareId, rs, d)
    ensures Image(SteppedView(v, shareId, d, v6), base, Stepped(m, d, ExportReading(shareId, v6)))
    ensures Denotes(After(rs, d), Stepped(m, d, ExportReading(shareId, v6)), ExportReading(shareId, v6))
    ensures Filed(After(rs, d)) && AllTelling(base, shareId, After(rs, d))
  {
    hide ExportOf, GroupName, GroupPrefix, StartsWith, Telling, Image, ForeignTo, Denotes, Distinct, Agrees, OwnNames,
      KeyIgnoresLevel, AllTelling, Filed;
    var read, au := ExportReading(shareId, v6), d.add + d.update;
    CallAgrees(rs, m, d, shareId, v6);
    ApplyingKeepsImage(v, base, m, shareId, au, v6);
    CallKeepsDenotes(base, rs, m, shareId, d, v6);
    DenotedNamesAreOwn(Upserted(rs, au), Overlay(m, au, read), base, shareId, v6);
    DeletedNamesFree(rs, Overlay(m, au, read), d, shareId, v6);
    assert forall r | r in d.delete :: r in d.add + d.delete;
    RemovingKeepsImage(Applied(v, shareId, au, v6), base, Overlay(m, au, read), shareId, d.delete, v6);
  }

  /** The rules keep denoting the map, before the deletions of a call and after them. */
  lemma CallKeepsDenotes(base: Exports, rs: RuleSet, m: map<string, Export>, shareId: string, d: Delta, v6: Ipv6Test)
    requires Filed(rs) && AllTelling(base, shareId, rs) && Denotes(rs, m, ExportReading(shareId, v6)) && LegalCall(base, shareId, rs, d)
    ensures var u := Upserted(rs, d.add + d.update);
      && Denotes(u, Overlay(m, d.add + d.update, ExportReading(shareId, v6)), ExportReading(shareId, v6))
      && Filed(u) && AllTelling(base, shareId, u)
    ensures Denotes(After(rs, d), Stepped(m, d, ExportReading(shareId, v6)), ExportReading(shareId, v6))
    ensures Filed(After(rs, d)) && AllTelling(base, shareId, After(rs, d))
  {
    hide ExportOf, GroupName, Telling, Denotes, Distinct, KeyIgnoresLevel, Filed;
    var read, au := ExportReading(shareId, v6), d.add + d.update;
    var grown := Delta(d.add, d.update, []);
    UpsertedSpec(rs, au);
    NamesDistinctSoExports(Upserted(rs, au), shareId, v6);
    ExportKeyIgnoresLevel(shareId, v6);
    StepKeepsDenotes(rs, m, d, read);
    StepKeepsShape(rs, d, NameReading(shareId));
    // the applied rules alone are a legal call too
    assert After(rs, grown) == Upserted(rs, au) && Stepped(m, grown, read) == Overlay(m, au, read);
    StepKeepsDenotes(rs, m, grown, read);
    StepKeepsShape(rs, grown, NameReading(shareId));
    UpsertedTelling(base, shareId, rs, d);
  }

  lemma UpsertedTelling(base: Exports, shareId: string, rs: RuleSet, d: Delta)
    requires AllTelling(base, shareId, rs) && LegalCall(base, shareId, rs, d)
    ensures AllTelling(base, shareId, Upserted(rs, d.add + d.update))
  {
    hide Telling, GroupName;
    UpsertedSpec(rs, d.add + d.update);
    forall i | i in Upserted(rs, d.add + d.update)
      ensures Telling(shareId, base, i)
    {
      if i !in rs {
        var r :| r in d.add + d.update && r.id == i;
        assert r in d.add;
        assert r in d.add + d.delete;
      }
    }
  }

  /** A deleted rule that denotes nothing has no group to lose. */
  lemma DeletedNamesFree(rs: RuleSet, m: map<string, Export>, d: Delta, shareId: string, v6: Ipv6Test)
    requires Filed(rs) && Legal(rs, d, NameReading(shareId))
    requires Denotes(Upserted(rs, d.add + d.update), m, ExportReading(shareId, v6))
    ensures forall r | r in d.delete && ExportOf(shareId, r, v6).None? :: GroupName(shareId, r.id) !in m
  {
    hide GroupName, AddressOf;
    var u, read, names := Upserted(rs, d.add + d.update), ExportReading(shareId, v6), NameReading(shareId);
    UpsertedSpec(rs, d.add + d.update);
    forall r | r in d.delete && ExportOf(shareId, r, v6).None?
      ensures GroupName(shareId, r.id) !in m
    {
      var n := GroupName(shareId, r.id);
      assert u[r.id] == r;
      forall i | i in u && read(u[i]).Some?
        ensures read(u[i]).value.key != n
      {
        assert i != r.id ==> names(u[i]).value.key != names(u[r.id]).value.key;
      }
    }
  }

  function Run(v: Exports, shareId: string, deltas: seq<Delta>, v6: Ipv6Test): Exports
    decreases |deltas|
  {
    if deltas == [] then v else Run(SteppedView(v, shareId, deltas[0], v6), shareId, deltas[1..], v6)
  }

  ghost predicate LegalCalls(base: Exports, shareId: string, rs: RuleSet, deltas: seq<Delta>)
    decreases |deltas|
  {
    deltas != [] ==> LegalCall(base, shareId, rs, deltas[0]) && LegalCalls(base, shareId, After(rs, deltas[0]), deltas[1..])
  }

  /** Every incremental run leaves permissions and groups the image of the current rules:
      none leaked, none missing, foreign ones untouched. */
  lemma {:induction false} RunKeepsImage(v: Exports, base: Exports, rs: RuleSet, m: map<string, Export>, shareId: string,
                                         deltas: seq<Delta>, v6: Ipv6Test) returns (n: map<string, Export>)
    requires Image(v, base, m) && ForeignTo(base, shareId) && Prefix8(Take(shareId, 8))
    requires Filed(rs) && AllTelling(base, shareId, rs) && Denotes(rs, m, ExportReading(shareId, v6))
    requires LegalCalls(base, shareId, rs, deltas)
    ensures Image(Run(v, shareId, deltas, v6), base, n)
    ensures Denotes(FinalRules(rs, deltas), n, ExportReading(shareId, v6))
    decreases |deltas|
  {
    hide ExportOf, Image, ForeignTo, Denotes, LegalCall, AllTelling, Filed, Stepped, SteppedView, Prefix8;
    if deltas == [] {
      n := m;
    } else {
      var d := deltas[0];
      StepKeepsImage(v, base, rs, m, shareId, d, v6);
      n := RunKeepsImage(SteppedView(v, shareId, d, v6), base, After(rs, d), Stepped(m, d, ExportReading(shareId, v6)),
                         shareId, deltas[1..], v6);
    }
  }

  lemma {:induction false} RunKeepsNames(rs: RuleSet, base: Exports, shareId: string, deltas: seq<Delta>)
    requires Filed(rs) && Distinct(rs, NameReading(shareId)) && LegalCalls(base, shareId, rs, deltas)
    ensures Distinct(FinalRules(rs, deltas), NameReading(shareId))
    decreases |deltas|
  {
    hide Distinct, Filed, Legal, Telling;
    if deltas != [] {
      StepKeepsShape(rs, deltas[0], NameReading(shareId));
      RunKeepsNames(After(rs, deltas[0]), base, shareId, deltas[1..]);
    }
  }

  lemma OwnImage(base: Exports)
    ensures Image(base, base, map[])
  {
    assert base.perms + Kinds(map[]) == base.perms && base.groups + Homes(map[]) == base.groups;
  }

  lemma NothingStale(v: Exports, base: Exports, m: map<string, Export>, shareId: string, rules: seq<Rule>)
    requires Image(v, base, m) && ForeignTo(base, shareId) && forall n | n in m :: n in Keys(NameReading(shareId), rules)
    ensures Without(v, Stale(v, shareId, rules)) == v
  {
    hide GroupPrefix, StartsWith, Keys;
    assert Stale(v, shareId, rules) == {};
    assert Without(v, {}) == v;
  }

  /** A full sync of a share nothing was exported for yet gives the image of its rules. */
  lemma FreshSyncIsImage(base: Exports, shareId: string, rules: seq<Rule>, v6: Ipv6Test)
    requires ForeignTo(base, shareId) && Agrees(map[], rules, ExportReading(shareId, v6))
    ensures Image(Synced(base, shareId, rules, v6), base, Overlay(map[], rules, ExportReading(shareId, v6)))
  {
    hide ExportOf, GroupPrefix, StartsWith, GroupName, Agrees, Image, ForeignTo, Stale, Without;
    var read := ExportReading(shareId, v6);
    var a, m := Applied(base, shareId, rules, v6), Overlay(map[], rules, read);
    OwnImage(base);
    ApplyingKeepsImage(base, base, map[], shareId, rules, v6);
    OverlayNames(map[], rules, read);
    forall n | n in m
      ensures n in Keys(NameReading(shareId), rules)
    {
      var r :| r in rules && Names(read, r, n);
      ExportHasPrefix(shareId, r, v6);
      assert NameReading(shareId)(r) == Some(Binding(n, ()));
    }
    NothingStale(a, base, m, shareId, rules);
  }

  lemma ListedAgree(rules: seq<Rule>, rs: RuleSet, shareId: string, v6: Ipv6Test)
    requires Lists(rules, rs) && Distinct(rs, NameReading(shareId))
    ensures Agrees(map[], rules, ExportReading(shareId, v6))
  {
    hide GroupName, AddressOf;
    var read := ExportReading(shareId, v6);
    forall r, s | r in rules && s in rules && read(r).Some? && read(s).Some? && read(r).value.key == read(s).value.key
      ensures read(r).value.value.address == read(s).value.value.address
    {
      assert rs[r.id] == r && rs[s.id] == s;
      assert NameReading(shareId)(r).value.key == NameReading(shareId)(s).value.key;
    }
  }

  /** Any run of incremental calls on a new share ends as one full sync on the resulting rules,
      listed in any order, would have made it. */
  lemma RunRefinesFullSync(base: Exports, shareId: string, deltas: seq<Delta>, final: seq<Rule>, v6: Ipv6Test)
    requires ForeignTo(base, shareId) && Prefix8(Take(shareId, 8))
    requires LegalCalls(base, shareId, map[], deltas) && Lists(final, FinalRules(map[], deltas))
    ensures Run(base, shareId, deltas, v6) == Synced(base, shareId, final, v6)
  {
    hide ExportOf, ForeignTo, Denotes, LegalCalls, Distinct, Lists, Prefix8, Agrees;
    var read, rs := ExportReading(shareId, v6), FinalRules(map[], deltas);
    OwnImage(base);
    EmptyDenotes(shareId, v6);
    var n := RunKeepsImage(base, base, map[], map[], shareId, deltas, v6);
    RunKeepsNames(map[], base, shareId, deltas);
    NamesDistinctSoExports(rs, shareId, v6);
    ListingDenotes(final, rs, read);
    DenotesUnique(rs, n, Overlay(map[], final, read), read);
    ListedAgree(final, rs, shareId, v6);
    FreshSyncIsImage(base, shareId, final, v6);
  }

  lemma EmptyDenotes(shareId: string, v6: Ipv6Test)
    ensures Denotes(map[], map[], ExportReading(shareId, v6))
    ensures Distinct(map[], NameReading(shareId))
  {
  }

  // ---- the part of the view others leave alone ----

  /** The permissions on the filesystem, and of the groups those with the share's prefix. */
  function Own(v: Exports, shareId: string): Exports
  {
    Exports(v.perms, map n | n in v.groups && StartsWith(n, GroupPrefix(shareId)) :: v.groups[n])
  }

  lemma SameOwn(v: Exports, w: Exports, shareId: string)
    requires v.perms == w.perms
    requires forall n | StartsWith(n, GroupPrefix(shareId)) :: (n in v.groups <==> n in w.groups) && (n in v.groups ==> w.groups[n] == v.groups[n])
    ensures Own(v, shareId) == Own(w, shareId)
  {
    hide StartsWith, GroupPrefix;
  }

  lemma OwnApplies(v: Exports, shareId: string, b: Binding<Export>)
    requires StartsWith(b.key, GroupPrefix(shareId))
    ensures Own(ApplyOne(v, b), shareId) == ApplyOne(Own(v, shareId), b)
  {
    hide StartsWith, GroupPrefix;
  }

  lemma OwnWithout(v: Exports, shareId: string, names: set<string>)
    ensures Own(Without(v, names), shareId) == Without(Own(v, shareId), names)
  {
    hide StartsWith, GroupPrefix;
  }

  lemma {:induction false} OwnAppliesAll(v: Exports, shareId: string, rules: seq<Rule>, v6: Ipv6Test)
    ensures Own(Applied(v, shareId, rules, v6), shareId) == Applied(Own(v, shareId), shareId, rules, v6)
  {
    hide ExportOf, StartsWith, GroupPrefix, ApplyOne, Own;
    if rules != [] {
      OwnAppliesAll(v, shareId, rules[..|rules| - 1], v6);
      if ExportOf(shareId, rules[|rules| - 1], v6).Some? {
        ExportHasPrefix(shareId, rules[|rules| - 1], v6);
        OwnApplies(Applied(v, shareId, rules[..|rules| - 1], v6), shareId, ExportOf(shareId, rules[|rules| - 1], v6).value);
      }
    }
  }

  lemma {:induction false} OwnRemovesAll(v: Exports, shareId: string, rules: seq<Rule>)
    ensures Own(Removed(v, rules), shareId) == Removed(Own(v, shareId), rules)
  {
    hide Contains, StartsWith, GroupPrefix, Without;
    if rules != [] {
      var w := Removed(v, rules[..|rules| - 1]);
      OwnRemovesAll(v, shareId, rules[..|rules| - 1]);
      OwnWithout(w, shareId, Hit(w, rules[|rules| - 1]));
    }
  }

  lemma OwnSteps(v: Exports, shareId: string, d: Delta, v6: Ipv6Test)
    ensures Own(SteppedView(v, shareId, d, v6), shareId) == SteppedView(Own(v, shareId), shareId, d, v6)
  {
    hide Own;
    OwnAppliesAll(v, shareId, d.add + d.update, v6);
    OwnRemovesAll(Applied(v, shareId, d.add + d.update, v6), shareId, d.delete);
  }

  lemma OwnSyncs(v: Exports, shareId: string, rules: seq<Rule>, v6: Ipv6Test)
    ensures Own(Synced(v, shareId, rules, v6), shareId) == Synced(Own(v, shareId), shareId, rules, v6)
  {
    hide StartsWith, GroupPrefix, Without, Keys;
    OwnAppliesAll(v, shareId, rules, v6);
    OwnWithout(Applied(v, shareId, rules, v6), shareId, Stale(Applied(v, shareId, rules, v6), shareId, rules));
  }

  lemma OwnIsForeign(v: Exports, shareId: string, deltas: seq<Delta>)
    requires ForeignTo(v, shareId)
    ensures ForeignTo(Own(v, shareId), shareId)
    ensures forall rs :: LegalCalls(v, shareId, rs, deltas) ==> LegalCalls(Own(v, shareId), shareId, rs, deltas)
  {
    hide StartsWith, GroupPrefix, LegalCalls;
    forall rs | LegalCalls(v, shareId, rs, deltas)
      ensures LegalCalls(Own(v, shareId), shareId, rs, deltas)
    {
      OwnIsLegal(v, shareId, rs, deltas);
    }
  }

  lemma {:induction false} OwnIsLegal(v: Exports, shareId: string, rs: RuleSet, deltas: seq<Delta>)
    requires LegalCalls(v, shareId, rs, deltas)
    ensures LegalCalls(Own(v, shareId), shareId, rs, deltas)
    decreases |deltas|
  {
    hide Legal;
    if deltas != [] {
      OwnIsLegal(v, shareId, After(rs, deltas[0]), deltas[1..]);
    }
  }

  /** What a deletion hits on a share whose permissions are all its own: the rule's permission,
      or every permission of the share if the rule's id starts like the share's. So it hits no
      other exactly if the prefixes differ or there is no other. */
  lemma DeletionHitsExactly(v: Exports, shareId: string, rule: Rule)
    requires Prefix8(Take(shareId, 8)) && Prefix8(Take(rule.id, 8))
    requires forall n | n in v.perms :: exists id :: n == GroupName(shareId, id) && Prefix8(Take(id, 8))
    ensures Hit(v, rule) == if Take(rule.id, 8) == Take(shareId, 8) then v.perms.Keys else v.perms.Keys * {GroupName(shareId, rule.id)}
    ensures Hit(v, rule) <= {GroupName(shareId, rule.id)} <==>
            Take(rule.id, 8) != Take(shareId, 8) || v.perms.Keys <= {GroupName(shareId, rule.id)}
  {
    hide Contains, GroupName, Prefix8;
    forall n | n in v.perms
      ensures n in Hit(v, rule) <==> n == GroupName(shareId, rule.id) || Take(rule.id, 8) == Take(shareId, 8)
    {
      var id :| n == GroupName(shareId, id) && Prefix8(Take(id, 8));
      SubstringOfGroupName(shareId, id, rule.id);
      GroupNameInjective(shareId, id, rule.id);
    }
  }

  /** Deleting a rule whose id starts like the share's removes every permission the share has. */
  lemma SharePrefixHitsAll(v: Exports, shareId: string, rule: Rule)
    requires Prefix8(Take(shareId, 8)) && Take(rule.id, 8) == Take(shareId, 8)
    requires forall n | n in v.perms :: exists id :: n == GroupName(shareId, id) && Prefix8(Take(id, 8))
    ensures Without(v, Hit(v, rule)).perms == map[]
  {
    DeletionHitsExactly(v, shareId, rule);
  }
}
