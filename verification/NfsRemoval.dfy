/** Deleting and pruning NFS access: permissions found in the listing, then their groups. */
module NfsRemoval {
  import opened Results
  import opened Rules
  import opened RuleMaps
  import opened Cluster
  import opened Nfs
  import opened NfsAccess
  import View = NfsView
  import Text

  lemma DeleteRuleEffect(st: State, fs: string, u: Uid, rule: Uid)
    requires WellFormed(st) && u in st.groups
    ensures var st' := Serve(st, DeleteRule(u, rule)).0;
      && Within(st, st', fs, Only(st.groups[u].name))
      && st'.perms == st.perms
      && u in st'.groups && st'.groups - {u} == st.groups - {u} && st'.groups[u].name == st.groups[u].name
      && st'.groups[u].rules == st.groups[u].rules - {rule}
  {
    hide WellFormed;
    ServeWellFormed(st, DeleteRule(u, rule));
  }

  lemma DeleteGroupEffect(st: State, fs: string, u: Uid)
    requires WellFormed(st) && u in st.groups
    ensures var st' := Serve(st, DeleteGroup(u)).0;
      && Within(st, st', fs, Only(st.groups[u].name))
      && st'.perms == st.perms
      && (st.groups[u].rules == map[] ==> Serve(st, DeleteGroup(u)).1 == Done && st'.groups == st.groups - {u})
      && st'.groups - {u} == st.groups - {u}
  {
    hide WellFormed;
    ServeWellFormed(st, DeleteGroup(u));
  }

  lemma PermsKept(st: State, st': State, fs: string)
    requires st'.perms == st.perms
    ensures PermTable(st', fs) == PermTable(st, fs)
  {
  }

  /** delete_client_group: its rules first, errors swallowed; then the group. */
  method DeleteClientGroup(s: Session, ghost fs: string, uid: Uid) returns (r: Outcome<(), Error>)
    requires WellFormed(s.st) && uid in s.st.groups
    modifies s
    ensures s.clock > old(s.clock)
    ensures Within(old(s.st), s.st, fs, Only(old(s.st).groups[uid].name))
    ensures s.st.perms == old(s.st).perms && s.st.groups - {uid} == old(s.st).groups - {uid}
    ensures uid in s.st.groups ==> s.st.groups[uid].name == old(s.st).groups[uid].name
    ensures r.Ok? ==> uid !in s.st.groups
    ensures r.Raised? ==> !r.error.NotFound? || uid !in s.st.groups
    ensures s.Chain(old(s.clock), s.clock)
    ensures s.AllAnswered(old(s.clock), s.clock) ==> uid !in s.st.groups
    ensures s.Reliable(old(s.clock)) ==> r.Ok?
  {
    hide Serve, WellFormed, Within, Session.Ends, Session.FirstReplyLost, Session.Unseen, Session.AnsweredFrom,
      Session.Chain, Session.AllAnswered;
    ghost var st0 := s.st;
    ghost var name := st0.groups[uid].name;
    WithinRefl(st0, fs, Only(name));
    s.ChainOne(s.clock);
    var e := s.Get();
    ghost var t1 := s.clock;
    if e.None? {
      DeleteRules(s, fs, uid);
      s.ChainJoin(old(s.clock), t1, s.clock);
      s.FairAnswersAll(t1, s.clock);
    }
    s.ChainStep(old(s.clock), s.clock);
    ghost var st2 := s.st;
    WithinWellFormed(st0, st2, fs, Only(name));
    DeleteGroupEffect(st2, fs, uid);
    DeleteGroupAnswers(st2, uid);
    WithinRefl(st2, fs, Only(name));
    var a, _ := s.Call(DeleteGroup(uid));
    WithinTrans(st0, st2, s.st, fs, Only(name));
    if a.Refused? {
      return Raised(a.error);
    }
    return Ok(());
  }

  /** The rules of a group, one request each; every error is swallowed. */
  method DeleteRules(s: Session, ghost fs: string, uid: Uid)
    requires WellFormed(s.st) && uid in s.st.groups
    modifies s
    ensures s.clock >= old(s.clock)
    ensures Within(old(s.st), s.st, fs, Only(old(s.st).groups[uid].name))
    ensures s.st.perms == old(s.st).perms
    ensures uid in s.st.groups && s.st.groups[uid].name == old(s.st).groups[uid].name
    ensures s.st.groups - {uid} == old(s.st).groups - {uid}
    ensures s.Chain(old(s.clock), s.clock)
    ensures s.AllAnswered(old(s.clock), s.clock) ==> s.st.groups[uid].rules == map[]
  {
    hide Serve, WellFormed, Within, Repeat, Uids, Session.Ends, Session.AnsweredFrom, Session.Chain, Session.AllAnswered;
    ghost var st0 := s.st;
    s.ChainOne(s.clock);
    ghost var name := st0.groups[uid].name;
    WithinRefl(st0, fs, Only(name));
    var rules := Listing(s.st.groups[uid].rules, s.st.next);
    RulesListed(st0, uid);
    for i := 0 to |rules|
      invariant s.clock >= old(s.clock)
      invariant Within(st0, s.st, fs, Only(name))
      invariant s.st.perms == st0.perms && uid in s.st.groups && s.st.groups[uid].name == name
      invariant s.st.groups - {uid} == st0.groups - {uid}
      invariant s.Chain(old(s.clock), s.clock)
      invariant s.AllAnswered(old(s.clock), s.clock) ==> s.st.groups[uid].rules.Keys <= Uids(rules, i)
    {
      ghost var st1 := s.st;
      s.ChainStep(old(s.clock), s.clock);
      WithinWellFormed(st0, st1, fs, Only(name));
      DeleteOneRule(s, fs, uid, rules[i].0);
      WithinTrans(st0, st1, s.st, fs, Only(name));
      UidsShrink(rules, i);
    }
    NoUids(rules);
  }

  method DeleteOneRule(s: Session, ghost fs: string, uid: Uid, rule: Uid)
    requires WellFormed(s.st) && uid in s.st.groups
    modifies s
    ensures s.clock > old(s.clock)
    ensures Within(old(s.st), s.st, fs, Only(old(s.st).groups[uid].name))
    ensures s.st.perms == old(s.st).perms
    ensures uid in s.st.groups && s.st.groups[uid].name == old(s.st).groups[uid].name
    ensures s.st.groups - {uid} == old(s.st).groups - {uid}
    ensures s.clock == s.Ends(old(s.clock))
    ensures s.AnsweredFrom(old(s.clock)) ==> s.st.groups[uid].rules.Keys == old(s.st).groups[uid].rules.Keys - {rule}
  {
    hide Serve, WellFormed, Within, Repeat, Session.Ends, Session.FirstReplyLost, Session.Unseen,
      Session.AnsweredFrom;
    DeleteRuleEffect(s.st, fs, uid, rule);
    WithinRefl(s.st, fs, Only(s.st.groups[uid].name));
    var a, _ := s.Call(DeleteRule(uid, rule));
  }

  /** The ids listed from position i on. */
  function Uids<T>(list: seq<(Uid, T)>, i: nat): set<Uid>
  {
    set j | i <= j < |list| :: list[j].0
  }

  lemma UidsShrink<T>(list: seq<(Uid, T)>, i: nat)
    requires i < |list|
    ensures Uids(list, i) == {list[i].0} + Uids(list, i + 1)
  {
  }

  lemma NoUids<T>(list: seq<(Uid, T)>)
    ensures Uids(list, |list|) == {}
  {
  }

  lemma RulesListed(st: State, uid: Uid)
    requires WellFormed(st) && uid in st.groups
    ensures st.groups[uid].rules.Keys <= Uids(Listing(st.groups[uid].rules, st.next), 0)
  {
    var list := Listing(st.groups[uid].rules, st.next);
    forall x | x in st.groups[uid].rules
      ensures x in Uids(list, 0)
    {
      assert (x, st.groups[uid].rules[x]) in list;
      var j :| 0 <= j < |list| && list[j] == (x, st.groups[uid].rules[x]);
      assert list[j].0 == x;
    }
  }

  /** What the answers to a group deletion say about the group. */
  lemma DeleteGroupAnswers(st: State, u: Uid)
    requires u in st.groups
    ensures var (st', a) := Serve(st, DeleteGroup(u));
      && (a == Done || a == Refused(Rejected))
      && (a == Done <==> u !in st'.groups)
      && (a.Refused? ==> st' == st && a.error.Rejected?)
      && (a == Done ==> Serve(st', DeleteGroup(u)).1 == Refused(NotFound))
  {
  }

  /** _delete_client_group_by_name */
  method DeleteGroupByName(s: Session, ghost fs: string, name: string) returns (r: Outcome<(), Error>)
    requires WellFormed(s.st)
    modifies s
    ensures s.clock > old(s.clock)
    ensures Within(old(s.st), s.st, fs, Only(name))
    ensures PermTable(s.st, fs) == PermTable(old(s.st), fs)
    ensures s.Reliable(old(s.clock)) ==>
      r.Ok? && ExportsOf(s.st, fs).groups == ExportsOf(old(s.st), fs).groups - {name}
  {
    hide Serve, WellFormed, Within, ExportsOf, PermTable, GroupUid;
    WithinRefl(s.st, fs, Only(name));
    ghost var st0 := s.st;
    var group :- FindGroup(s, name);
    GroupLookupView(st0, fs, name);
    if group.None? {
      assert ExportsOf(st0, fs).groups - {name} == ExportsOf(st0, fs).groups;
      return Ok(());
    }
    FoundGroup(st0, name);
    r := DeleteClientGroup(s, fs, group.value);
    PermsKept(st0, s.st, fs);
    if s.Reliable(old(s.clock)) {
      assert s.st.groups == s.st.groups - {group.value};
      GroupErased(st0, s.st, fs, group.value);
    }
    if r.Raised? && r.error.NotFound? {
      return Ok(());
    }
  }

  lemma FoundGroup(st: State, name: string)
    requires GroupUid(st, name).Some?
    ensures GroupUid(st, name).value in st.groups && st.groups[GroupUid(st, name).value].name == name
  {
  }

  /** Deletes one listed permission. */
  method DeleteListedPerm(s: Session, ghost fs: string, uid: Uid, ghost select: string -> bool) returns (r: Outcome<(), Error>)
    requires WellFormed(s.st) && uid in s.st.perms && s.st.perms[uid].fs == fs && select(s.st.perms[uid].group)
    modifies s
    ensures s.clock > old(s.clock)
    ensures Within(old(s.st), s.st, fs, select)
    ensures GroupTable(s.st) == GroupTable(old(s.st))
    ensures s.st.perms == old(s.st).perms || s.st.perms == old(s.st).perms - {uid}
    ensures s.Reliable(old(s.clock)) ==> r.Ok?
    ensures s.Reliable(old(s.clock)) && UniquePerms(old(s.st), fs) ==>
      && UniquePerms(s.st, fs)
      && ExportsOf(s.st, fs).perms == ExportsOf(old(s.st), fs).perms - {old(s.st).perms[uid].group}
  {
    hide Serve, WellFormed, Within, ExportsOf, PermTable, GroupTable, UniquePerms, Repeat, Session.Ends,
      Session.FirstReplyLost, Session.Unseen, Session.AnsweredFrom;
    ghost var st0 := s.st;
    DeletePermEffect(st0, fs, uid);
    GroupTableKept(st0, Serve(st0, DeletePerm(uid)).0);
    WithinRefl(st0, fs, select);
    WithinWider(st0, Serve(st0, DeletePerm(uid)).0, fs, Only(st0.perms[uid].group), select);
    var a, _ := s.Call(DeletePerm(uid));
    if a.Refused? {
      return Raised(a.error);
    }
    return Ok(());
  }

  /** Deletes the listed permissions on the filesystem whose group is selected. A strict
      caller stops at the first failure; a lenient one reports only what was deleted. */
  method DeletePerms(s: Session, fs: string, select: string -> bool, strict: bool) returns (r: Outcome<set<string>, Error>)
    requires WellFormed(s.st)
    modifies s
    ensures s.clock > old(s.clock)
    ensures Within(old(s.st), s.st, fs, select)
    ensures GroupTable(s.st) == GroupTable(old(s.st))
    ensures r.Ok? ==> forall n | n in r.value :: select(n)
    ensures s.Reliable(old(s.clock)) ==> r.Ok?
    ensures s.Reliable(old(s.clock)) && UniquePerms(old(s.st), fs) ==>
      var v := ExportsOf(old(s.st), fs).perms;
      && r.value == (set n | n in v && select(n))
      && UniquePerms(s.st, fs) && ExportsOf(s.st, fs).perms == v - r.value
  {
    hide Serve, WellFormed, Within, ExportsOf, PermTable, GroupTable, UniquePerms, SelectedNames, Listing, AllListed,
      Session.Ends, Session.FirstReplyLost, Session.Unseen, Session.AnsweredFrom;
    ghost var st0 := s.st;
    ghost var v := ExportsOf(st0, fs).perms;
    WithinRefl(st0, fs, select);
    var e := s.Get();
    if e.Some? {
      return Raised(e.value);
    }
    var list := Listing(s.st.perms, s.st.next);
    var names: set<string> := {};
    PermsListed(st0, list);
    SelectedNone(list, fs, select);
    assert v - names == v;
    for i := 0 to |list|
      invariant s.clock > old(s.clock)
      invariant Within(st0, s.st, fs, select)
      invariant GroupTable(s.st) == GroupTable(st0)
      invariant AllListed(s.st, list, i)
      invariant forall n | n in names :: select(n)
      invariant s.Reliable(old(s.clock)) ==> names == SelectedNames(list, i, fs, select)
      invariant s.Reliable(old(s.clock)) && UniquePerms(st0, fs) ==>
        UniquePerms(s.st, fs) && ExportsOf(s.st, fs).perms == v - names
    {
      var (uid, perm) := list[i];
      SelectedOneMore(list, i, fs, select);
      ghost var st1 := s.st;
      ListedHere(st1, list, i);
      if perm.fs == fs && select(perm.group) {
        WithinWellFormed(st0, st1, fs, select);
        var deleted := DeleteListedPerm(s, fs, uid, select);
        WithinTrans(st0, st1, s.st, fs, select);
        if deleted.Raised? {
          if strict {
            return Raised(deleted.error);
          }
        } else {
          assert v - names - {perm.group} == v - (names + {perm.group});
          names := names + {perm.group};
        }
      }
      ListedNext(st1, s.st, list, i);
    }
    if s.Reliable(old(s.clock)) && UniquePerms(st0, fs) {
      SelectedAreViewed(st0, fs, list, select);
    }
    return Ok(names);
  }

  /** The entries from position i on are still on the server. */
  ghost predicate AllListed(st: State, list: seq<(Uid, Permission)>, i: nat)
  {
    && (forall j | i <= j < |list| :: StillListed(st, list[j]))
    && (forall j, k | 0 <= j < k < |list| :: list[j].0 < list[k].0)
  }

  lemma ListedHere(st: State, list: seq<(Uid, Permission)>, i: nat)
    requires AllListed(st, list, i) && i < |list|
    ensures list[i].0 in st.perms && st.perms[list[i].0] == list[i].1
  {
    assert StillListed(st, list[i]);
  }

  lemma ListedNext(st: State, st': State, list: seq<(Uid, Permission)>, i: nat)
    requires AllListed(st, list, i) && i < |list|
    requires st'.perms == st.perms - {list[i].0} || st'.perms == st.perms
    ensures AllListed(st', list, i + 1)
  {
    forall j | i < j < |list|
      ensures StillListed(st', list[j])
    {
      assert StillListed(st, list[j]) && list[i].0 < list[j].0;
    }
  }

  lemma PermsListed(st: State, list: seq<(Uid, Permission)>)
    requires WellFormed(st) && list == Listing(st.perms, st.next)
    ensures AllListed(st, list, 0)
  {
    assert forall j | 0 <= j < |list| :: list[j] in list;
  }

  ghost predicate StillListed(st: State, e: (Uid, Permission))
  {
    e.0 in st.perms && st.perms[e.0] == e.1
  }

  /** The selected group names among the first i entries. */
  function SelectedNames(list: seq<(Uid, Permission)>, i: nat, fs: string, select: string -> bool): set<string>
    requires i <= |list|
  {
    set j | 0 <= j < i && list[j].1.fs == fs && select(list[j].1.group) :: list[j].1.group
  }

  lemma SelectedNone(list: seq<(Uid, Permission)>, fs: string, select: string -> bool)
    ensures SelectedNames(list, 0, fs, select) == {}
  {
  }

  lemma SelectedOneMore(list: seq<(Uid, Permission)>, i: nat, fs: string, select: string -> bool)
    requires i < |list|
    ensures SelectedNames(list, i + 1, fs, select) == SelectedNames(list, i, fs, select) +
            (if list[i].1.fs == fs && select(list[i].1.group) then {list[i].1.group} else {})
  {
  }

  lemma GroupTableKept(st: State, st': State)
    requires st'.groups == st.groups
    ensures GroupTable(st') == GroupTable(st)
  {
  }

  lemma SelectedAreViewed(st: State, fs: string, list: seq<(Uid, Permission)>, select: string -> bool)
    requires WellFormed(st) && list == Listing(st.perms, st.next)
    ensures SelectedNames(list, |list|, fs, select) == set n | n in ExportsOf(st, fs).perms && select(n)
  {
    hide ExportsOf, WellFormed, SelectedNames;
    forall n
      ensures n in SelectedNames(list, |list|, fs, select) <==> n in ExportsOf(st, fs).perms && select(n)
    {
      PermLookupView(st, fs, n);
      SelectedIffPresent(st, fs, list, select, n);
    }
  }

  lemma SelectedIffPresent(st: State, fs: string, list: seq<(Uid, Permission)>, select: string -> bool, n: string)
    requires WellFormed(st) && list == Listing(st.perms, st.next)
    ensures n in SelectedNames(list, |list|, fs, select) <==>
            select(n) && exists u :: u in st.perms && st.perms[u].fs == fs && st.perms[u].group == n
  {
    if select(n) {
      if u :| u in st.perms && st.perms[u].fs == fs && st.perms[u].group == n {
        assert (u, st.perms[u]) in list;
        var j :| 0 <= j < |list| && list[j] == (u, st.perms[u]);
        assert list[j].1.group == n;
      }
    }
    if n in SelectedNames(list, |list|, fs, select) {
      var j :| 0 <= j < |list| && list[j].1.fs == fs && list[j].1.group == n;
      assert list[j] in list;
      assert list[j].0 in st.perms;
    }
  }

  /** Deletes the named groups, in any order. */
  method DeleteGroups(s: Session, fs: string, names: set<string>, strict: bool, ghost touched: string -> bool)
    returns (r: Outcome<(), Error>)
    requires WellFormed(s.st) && forall n | n in names :: touched(n)
    modifies s
    ensures s.clock >= old(s.clock)
    ensures Within(old(s.st), s.st, fs, touched)
    ensures PermTable(s.st, fs) == PermTable(old(s.st), fs)
    ensures s.Reliable(old(s.clock)) ==> r.Ok? && ExportsOf(s.st, fs).groups == ExportsOf(old(s.st), fs).groups - names
  {
    hide Serve, WellFormed, Within, ExportsOf, PermTable;
    ghost var st0 := s.st;
    WithinRefl(st0, fs, touched);
    var todo := names;
    while todo != {}
      invariant todo <= names
      invariant s.clock >= old(s.clock)
      invariant Within(st0, s.st, fs, touched)
      invariant PermTable(s.st, fs) == PermTable(st0, fs)
      invariant s.Reliable(old(s.clock)) ==> ExportsOf(s.st, fs).groups == ExportsOf(st0, fs).groups - (names - todo)
      decreases todo
    {
      var name :| name in todo;
      ghost var st1 := s.st;
      WithinWellFormed(st0, st1, fs, touched);
      var deleted := DeleteGroupByName(s, fs, name);
      WithinWider(st1, s.st, fs, Only(name), touched);
      WithinTrans(st0, st1, s.st, fs, touched);
      if deleted.Raised? && strict {
        return deleted;
      }
      ghost var g := ExportsOf(st0, fs).groups;
      assert g - (names - todo) - {name} == g - (names - (todo - {name}));
      todo := todo - {name};
    }
    return Ok(());
  }

  /** _remove_nfs_rule */
  method RemoveRule(s: Session, fs: string, rule: Rule) returns (r: Outcome<(), Error>)
    requires WellFormed(s.st)
    modifies s
    ensures s.clock > old(s.clock)
    ensures Within(old(s.st), s.st, fs, HitBy(rule))
    ensures s.Reliable(old(s.clock)) && UniquePerms(old(s.st), fs) ==>
      && r.Ok? && UniquePerms(s.st, fs)
      && var v := ExportsOf(old(s.st), fs); ExportsOf(s.st, fs) == View.Without(v, View.Hit(v, rule))
  {
    hide Serve, WellFormed, Within, ExportsOf, PermTable, GroupTable, UniquePerms, Text.Contains;
    ghost var st0 := s.st;
    WithinRefl(st0, fs, HitBy(rule));
    var names :- DeletePerms(s, fs, HitBy(rule), true);
    ghost var st1 := s.st;
    WithinWellFormed(st0, st1, fs, HitBy(rule));
    r := DeleteGroups(s, fs, names - {""}, true, HitBy(rule));
    WithinTrans(st0, st1, s.st, fs, HitBy(rule));
    SamePermTable(st1, s.st, fs);
    SameGroupTable(st0, st1, fs);
    if s.Reliable(old(s.clock)) && UniquePerms(st0, fs) {
      assert names == View.Hit(ExportsOf(st0, fs), rule);
    }
  }

  function HitBy(rule: Rule): string -> bool
  {
    n => Text.Contains(n, Text.Take(rule.id, 8))
  }

  lemma PrefixNotEmpty(shareId: string)
    ensures !Text.StartsWith("", GroupPrefix(shareId))
  {
  }

  /** _prune_nfs_rules */
  method Prune(s: Session, share: Share, rules: seq<Rule>) returns (r: Outcome<(), Error>)
    requires WellFormed(s.st)
    modifies s
    ensures s.clock > old(s.clock)
    ensures Within(old(s.st), s.st, share.fsName, n => Text.StartsWith(n, GroupPrefix(share.id)) && n !in Keys(View.NameReading(share.id), rules))
    ensures s.Reliable(old(s.clock)) && UniquePerms(old(s.st), share.fsName) ==>
      && r.Ok? && UniquePerms(s.st, share.fsName)
      && var v := ExportsOf(old(s.st), share.fsName);
         ExportsOf(s.st, share.fsName) == View.Without(v, View.Stale(v, share.id, rules))
  {
    hide Serve, WellFormed, Within, ExportsOf, PermTable, GroupTable, UniquePerms, Text.StartsWith, GroupPrefix;
    var fs, prefix := share.fsName, GroupPrefix(share.id);
    var expected := Keys(View.NameReading(share.id), rules);
    PrefixNotEmpty(share.id);
    var stale := n => Text.StartsWith(n, prefix) && n !in expected;
    ghost var st0 := s.st;
    WithinRefl(st0, fs, stale);
    var names := DeletePerms(s, fs, stale, false);
    if names.Raised? {
      return Raised(names.error);
    }
    ghost var st1 := s.st;
    WithinWellFormed(st0, st1, fs, stale);
    var deleted := DeleteGroups(s, fs, names.value, false, stale);
    WithinTrans(st0, st1, s.st, fs, stale);
    SamePermTable(st1, s.st, fs);
    SameGroupTable(st0, st1, fs);
    if s.Reliable(old(s.clock)) && UniquePerms(st0, fs) {
      assert names.value == View.Stale(ExportsOf(st0, fs), share.id, rules);
      assert names.value - {""} == names.value;
    }
    return Ok(());
  }
}
