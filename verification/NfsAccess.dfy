/** update_access for NFS shares: groups, addresses and permissions, one request at a time. */
module NfsAccess {
  import opened Results
  import opened Rules
  import opened RuleMaps
  import opened Cluster
  import opened Tables
  import opened Nfs
  import opened NfsPromises
  import View = NfsView
  import Net

  // ---- lookups ----

  /** _get_client_group_by_name */
  method FindGroup(s: Session, name: string) returns (r: Outcome<Option<Uid>, Error>)
    requires WellFormed(s.st)
    modifies s`clock
    ensures s.clock > old(s.clock)
    ensures r.Ok? ==> r.value == GroupUid(s.st, name)
    ensures s.Reliable(old(s.clock)) ==> r.Ok?
  {
    var e := s.Get();
    if e.Some? {
      return Raised(e.value);
    }
    var list := Listing(s.st.groups, s.st.next);
    for i := 0 to |list|
      invariant forall j | 0 <= j < i :: list[j].1.name != name
    {
      if list[i].1.name == name {
        GroupIs(s.st, name, list[i].0);
        return Ok(Some(list[i].0));
      }
    }
    forall u | u in s.st.groups
      ensures s.st.groups[u].name != name
    {
      assert (u, s.st.groups[u]) in list;
    }
    return Ok(None);
  }

  /** _find_nfs_permission */
  method FindPermission(s: Session, fs: string, group: string) returns (r: Outcome<Option<(Uid, Permission)>, Error>)
    requires WellFormed(s.st)
    modifies s`clock
    ensures s.clock > old(s.clock)
    ensures r.Ok? && r.value.None? ==> forall u | u in s.st.perms :: !(s.st.perms[u].fs == fs && s.st.perms[u].group == group)
    ensures r.Ok? && r.value.Some? ==>
      var (u, p) := r.value.value;
      && u in s.st.perms && s.st.perms[u] == p && p.fs == fs && p.group == group
      && forall w | w in s.st.perms && s.st.perms[w].fs == fs && s.st.perms[w].group == group :: u <= w
    ensures s.Reliable(old(s.clock)) ==> r.Ok?
  {
    hide WellFormed, Listing, Session.Ends, Session.AnsweredFrom;
    var e := s.Get();
    if e.Some? {
      return Raised(e.value);
    }
    var list := Listing(s.st.perms, s.st.next);
    AllOf(s.st.perms, s.st.next);
    for i := 0 to |list|
      invariant forall j | 0 <= j < i :: !(list[j].1.fs == fs && list[j].1.group == group)
    {
      if list[i].1.fs == fs && list[i].1.group == group {
        ListedFirst(s.st, list, i, fs, group);
        return Ok(Some(list[i]));
      }
    }
    NoneListed(s.st, list, fs, group);
    return Ok(None);
  }

  lemma AllOf(perms: map<Uid, Permission>, next: Uid)
    ensures var list := Listing(perms, next); forall i | 0 <= i < |list| :: list[i].0 in perms && perms[list[i].0] == list[i].1
  {
    var list := Listing(perms, next);
    assert forall i | 0 <= i < |list| :: list[i] in list;
  }

  lemma NoneListed(st: State, list: seq<(Uid, Permission)>, fs: string, group: string)
    requires WellFormed(st) && list == Listing(st.perms, st.next)
    requires forall j | 0 <= j < |list| :: !(list[j].1.fs == fs && list[j].1.group == group)
    ensures forall u | u in st.perms :: !(st.perms[u].fs == fs && st.perms[u].group == group)
  {
    forall u | u in st.perms
      ensures !(st.perms[u].fs == fs && st.perms[u].group == group)
    {
      assert (u, st.perms[u]) in list;
    }
  }

  lemma ListedFirst(st: State, list: seq<(Uid, Permission)>, i: nat, fs: string, group: string)
    requires WellFormed(st) && list == Listing(st.perms, st.next) && i < |list|
    requires forall j | 0 <= j < i :: !(list[j].1.fs == fs && list[j].1.group == group)
    ensures forall w | w in st.perms && st.perms[w].fs == fs && st.perms[w].group == group :: list[i].0 <= w
  {
    forall w | w in st.perms && st.perms[w].fs == fs && st.perms[w].group == group
      ensures list[i].0 <= w
    {
      assert (w, st.perms[w]) in list;
      var j :| 0 <= j < |list| && list[j] == (w, st.perms[w]);
    }
  }

  // ---- the effect of requests on the view ----

  lemma CreateGroupServed(st: State, fs: string, name: string)
    requires WellFormed(st) && GroupUid(st, name).None?
    ensures var st' := Serve(st, CreateGroup(name)).0;
      && Serve(st, CreateGroup(name)).1 == Created(st.next)
      && Serve(st', CreateGroup(name)).1 == Refused(Conflict)
      && st.next !in st.groups && st'.groups == st.groups[st.next := Group(name, map[])]
      && st'.perms == st.perms
      && Within(st, st', fs, Only(name))
  {
    var st' := Serve(st, CreateGroup(name)).0;
    ServeWellFormed(st, CreateGroup(name));
    assert st'.groups[st.next].name == name;
  }

  lemma CreateGroupEffect(st: State, fs: string, name: string)
    requires WellFormed(st) && GroupUid(st, name).None?
    ensures var st' := Serve(st, CreateGroup(name)).0;
      && Serve(st, CreateGroup(name)).1 == Created(st.next)
      && Serve(st', CreateGroup(name)).1 == Refused(Conflict)
      && GroupUid(st', name) == Some(st.next) && st.next in st'.groups && st'.groups[st.next] == Group(name, map[])
      && Within(st, st', fs, Only(name))
      && PermTable(st', fs) == PermTable(st, fs)
      && ExportsOf(st', fs) == ExportsOf(st, fs).(groups := ExportsOf(st, fs).groups[name := {}])
  {
    hide WellFormed, ExportsOf, PermTable, Serve, GroupUid, Within;
    var st' := Serve(st, CreateGroup(name)).0;
    CreateGroupServed(st, fs, name);
    WithinWellFormed(st, st', fs, Only(name));
    GroupIs(st', name, st.next);
    GroupWritten(st, st', fs, st.next);
    EmptyGroup(st', st.next, name);
  }

  lemma AddRuleServed(st: State, fs: string, u: Uid, address: string)
    requires WellFormed(st) && u in st.groups
    ensures var st' := Serve(st, AddRule(u, address)).0;
      && Within(st, st', fs, Only(st.groups[u].name))
      && (Serve(st, AddRule(u, address)).1.Refused? ==> Serve(st, AddRule(u, address)).1.error.AlreadyExists?)
  {
    hide Net.Echo, WellFormed;
    ServeWellFormed(st, AddRule(u, address));
  }

  lemma AddRuleEffect(st: State, fs: string, name: string, u: Uid, address: string)
    requires WellFormed(st) && GroupUid(st, name) == Some(u)
    ensures var st' := Serve(st, AddRule(u, address)).0;
      && GroupUid(st', name) == Some(u)
      && Within(st, st', fs, Only(name))
      && PermTable(st', fs) == PermTable(st, fs)
      && ExportsOf(st', fs) == ExportsOf(st, fs).(groups :=
           ExportsOf(st, fs).groups[name := AddressesOf(st.groups[u]) + {Net.Norm(Net.Echo(address))}])
      && (Serve(st, AddRule(u, address)).1.Refused? ==> Serve(st, AddRule(u, address)).1.error.AlreadyExists?)
  {
    hide WellFormed, ExportsOf, PermTable, AddressesOf, Within, Serve, Net.Norm, Net.Echo, GroupUid;
    var st' := Serve(st, AddRule(u, address)).0;
    AddRuleServed(st, fs, u, address);
    AddressesGrow(st, u, address);
    WithinWellFormed(st, st', fs, Only(name));
    GroupIs(st', name, u);
    GroupWritten(st, st', fs, u);
  }

  lemma AddressesGrow(st: State, u: Uid, address: string)
    requires WellFormed(st) && u in st.groups
    ensures var st' := Serve(st, AddRule(u, address)).0;
      && u in st'.groups && st'.groups == st.groups[u := st'.groups[u]] && st'.groups[u].name == st.groups[u].name
      && AddressesOf(st'.groups[u]) == AddressesOf(st.groups[u]) + {Net.Norm(Net.Echo(address))}
      && st'.perms == st.perms
  {
    hide Net.Norm, Net.Echo, AddressesOf;
    NewRuleIsNew(st, u);
    hide WellFormed;
    AddressesWith(st.groups[u].name, st.groups[u].rules, st.next, Net.Echo(address));
  }

  lemma NewRuleIsNew(st: State, u: Uid)
    requires WellFormed(st) && u in st.groups
    ensures st.next !in st.groups[u].rules
  {
  }

  lemma AddressesWith(name: string, rules: map<Uid, string>, r: Uid, echo: string)
    requires r !in rules
    ensures AddressesOf(Group(name, rules[r := echo])) == AddressesOf(Group(name, rules)) + {Net.Norm(echo)}
    ensures echo in rules.Values ==> AddressesOf(Group(name, rules)) + {Net.Norm(echo)} == AddressesOf(Group(name, rules))
  {
    hide Net.Norm;
    var rules' := rules[r := echo];
    assert rules'[r] == echo && forall x | x in rules :: x in rules' && rules'[x] == rules[x];
  }

  // ---- _apply_nfs_rule ----

  /** Gets or creates the rule's group, and reads its addresses. */
  method GroupFor(s: Session, fs: string, name: string) returns (r: Outcome<(Uid, set<string>), Error>)
    requires WellFormed(s.st)
    modifies s
    ensures s.clock > old(s.clock)
    ensures Within(old(s.st), s.st, fs, Only(name))
    ensures PermTable(s.st, fs) == PermTable(old(s.st), fs)
    ensures r.Ok? ==> var (uid, existing) := r.value;
      && GroupUid(s.st, name) == Some(uid) && uid in s.st.groups && existing == AddressesOf(s.st.groups[uid])
      && existing == View.Addresses(ExportsOf(old(s.st), fs), name)
      && ExportsOf(s.st, fs) == ExportsOf(old(s.st), fs).(groups := ExportsOf(old(s.st), fs).groups[name := existing])
    ensures s.Reliable(old(s.clock)) ==> r.Ok?
  {
    hide Serve, WellFormed, Within, ExportsOf, PermTable, AddressesOf, GroupUid, Repeat, Session.Ends,
      Session.FirstReplyLost, Session.Unseen, Session.AnsweredFrom;
    ghost var st0 := s.st;
    WithinRefl(st0, fs, Only(name));
    var group :- FindGroup(s, name);
    GroupLookupView(st0, fs, name);
    match group {
      case None =>
        CreateGroupEffect(st0, fs, name);
        var a, _ := s.Call(CreateGroup(name));
        if a.Refused? {
          return Raised(a.error);
        }
        EmptyGroup(s.st, a.uid, name);
        return Ok((a.uid, {}));
      case Some(uid) =>
        var e := s.Get();
        if e.Some? {
          return Raised(e.value);
        }
        return Ok((uid, AddressesOf(s.st.groups[uid])));
    }
  }

  /** Gets or creates the rule's group and makes sure it holds the address. */
  method EnsureAddress(s: Session, fs: string, name: string, weka: string) returns (r: Outcome<(), Error>)
    requires WellFormed(s.st)
    modifies s
    ensures s.clock > old(s.clock)
    ensures Within(old(s.st), s.st, fs, Only(name))
    ensures PermTable(s.st, fs) == PermTable(old(s.st), fs)
    ensures r.Ok? ==> Net.Norm(Net.Echo(weka)) in View.Addresses(ExportsOf(s.st, fs), name)
    ensures s.Reliable(old(s.clock)) ==> r.Ok?
    ensures s.Reliable(old(s.clock)) ==>
      var v := ExportsOf(old(s.st), fs);
      ExportsOf(s.st, fs) == v.(groups := v.groups[name := View.Addresses(v, name) + {Net.Norm(Net.Echo(weka))}])
  {
    hide Serve, WellFormed, Within, ExportsOf, PermTable, AddressesOf, GroupUid, Repeat, Net.Norm, Net.Echo,
      Session.Ends, Session.FirstReplyLost, Session.Unseen, Session.AnsweredFrom;
    ghost var st0 := s.st;
    var group :- GroupFor(s, fs, name);
    var (uid, existing) := group;
    ghost var st1 := s.st;
    WithinWellFormed(st0, st1, fs, Only(name));
    EchoedIn(st1, uid, weka);
    if Net.Norm(weka) !in existing {
      AddRuleEffect(st1, fs, name, uid, weka);
      WithinRefl(st1, fs, Only(name));
      var a, _ := s.Call(AddRule(uid, weka));
      WithinTrans(st0, st1, s.st, fs, Only(name));
      if a.Refused? && !IsAlreadyExists(a.error) {
        return Raised(a.error);
      }
    } else {
      assert existing + {Net.Norm(Net.Echo(weka))} == existing;
    }
    return Ok(());
  }

  lemma EmptyGroup(st: State, u: Uid, name: string)
    requires u in st.groups && st.groups[u] == Group(name, map[])
    ensures AddressesOf(st.groups[u]) == {}
  {
  }

  lemma WithinWellFormed(st: State, st': State, fs: string, touched: string -> bool)
    requires Within(st, st', fs, touched)
    ensures WellFormed(st')
  {
  }

  lemma GroupLookupView(st: State, fs: string, name: string)
    requires WellFormed(st)
    ensures GroupUid(st, name).None? <==> name !in ExportsOf(st, fs).groups
    ensures GroupUid(st, name).Some? ==>
      && GroupUid(st, name).value in st.groups
      && ExportsOf(st, fs).groups[name] == AddressesOf(st.groups[GroupUid(st, name).value])
  {
    hide AddressesOf;
    GroupLookup(st, name);
  }

  /** An address found among the normalised ones of a group is there as the cluster echoes it. */
  lemma EchoedIn(st: State, u: Uid, weka: string)
    requires WellFormed(st) && u in st.groups
    ensures Net.Norm(weka) in AddressesOf(st.groups[u]) ==> Net.Norm(Net.Echo(weka)) in AddressesOf(st.groups[u])
  {
    if Net.Norm(weka) in AddressesOf(st.groups[u]) {
      var r :| r in st.groups[u].rules && Net.Norm(st.groups[u].rules[r]) == Net.Norm(weka);
      Net.NormKeepsSlash(st.groups[u].rules[r]);
      hide WellFormed, Net.Norm;
      if Net.Parse(weka).Some? {
        Net.EchoNormalises(weka);
      } else {
        Net.NormOfMalformed(weka);
      }
    }
  }

  lemma CreatePermServed(st: State, fs: string, name: string, kind: string)
    requires WellFormed(st)
    ensures var st' := Serve(st, CreatePerm(name, fs, kind)).0;
      && Serve(st, CreatePerm(name, fs, kind)).1 == Created(st.next)
      && Within(st, st', fs, Only(name))
      && st'.groups == st.groups
      && st'.perms == st.perms[st.next := Permission(fs, name, kind)] && st.next !in st.perms
  {
    ServeWellFormed(st, CreatePerm(name, fs, kind));
  }

  lemma CreatePermEffect(st: State, fs: string, name: string, kind: string)
    requires WellFormed(st)
    ensures var st' := Serve(st, CreatePerm(name, fs, kind)).0;
      && Serve(st, CreatePerm(name, fs, kind)).1 == Created(st.next)
      && Within(st, st', fs, Only(name))
      && st'.groups == st.groups
      && st'.perms == st.perms[st.next := Permission(fs, name, kind)] && st.next !in st.perms
      && (UniquePerms(st, fs) && name !in ExportsOf(st, fs).perms ==>
            && UniquePerms(st', fs)
            && ExportsOf(st', fs) == ExportsOf(st, fs).(perms := ExportsOf(st, fs).perms[name := kind]))
  {
    hide UniquePerms, ExportsOf, WellFormed, Within, Serve;
    var st' := Serve(st, CreatePerm(name, fs, kind)).0;
    CreatePermServed(st, fs, name, kind);
    if UniquePerms(st, fs) && name !in ExportsOf(st, fs).perms {
      PermWritten(st, st', fs, st.next, Permission(fs, name, kind));
    }
  }

  lemma DeletePermServed(st: State, fs: string, u: Uid)
    requires WellFormed(st) && u in st.perms && st.perms[u].fs == fs
    ensures var st' := Serve(st, DeletePerm(u)).0;
      && Serve(st, DeletePerm(u)).1 == Done
      && Within(st, st', fs, Only(st.perms[u].group))
      && st'.groups == st.groups
      && st'.perms == st.perms - {u}
  {
    ServeWellFormed(st, DeletePerm(u));
  }

  lemma DeletePermEffect(st: State, fs: string, u: Uid)
    requires WellFormed(st) && u in st.perms && st.perms[u].fs == fs
    ensures var st' := Serve(st, DeletePerm(u)).0;
      && Serve(st, DeletePerm(u)).1 == Done
      && Within(st, st', fs, Only(st.perms[u].group))
      && st'.groups == st.groups
      && st'.perms == st.perms - {u}
      && (UniquePerms(st, fs) ==>
            && UniquePerms(st', fs)
            && ExportsOf(st', fs) == ExportsOf(st, fs).(perms := ExportsOf(st, fs).perms - {st.perms[u].group}))
  {
    hide UniquePerms, ExportsOf, WellFormed, Within, Serve;
    var st' := Serve(st, DeletePerm(u)).0;
    DeletePermServed(st, fs, u);
    if UniquePerms(st, fs) {
      PermErased(st, st', fs, u);
    }
  }

  lemma PermLookupView(st: State, fs: string, name: string)
    ensures name in ExportsOf(st, fs).perms <==> exists u :: u in st.perms && st.perms[u].fs == fs && st.perms[u].group == name
    ensures UniquePerms(st, fs) ==> forall u | u in st.perms && st.perms[u].fs == fs && st.perms[u].group == name ::
              name in ExportsOf(st, fs).perms && ExportsOf(st, fs).perms[name] == st.perms[u].kind
  {
    var t := PermTable(st, fs);
    KeysAreCarried(t, name);
    hide ByKey;
    forall u | u in st.perms && st.perms[u].fs == fs && st.perms[u].group == name
      ensures Carries(t, u, name)
      ensures UniquePerms(st, fs) ==> name in ByKey(t) && ByKey(t)[name] == st.perms[u].kind
    {
      if UniquePerms(st, fs) {
        Lookup(t, u);
      }
    }
    if u :| Carries(t, u, name) {
      assert u in st.perms && st.perms[u].fs == fs && st.perms[u].group == name;
    }
  }

  /** Makes the group's permission one of the given type, replacing one of the other type. */
  method EnsurePermission(s: Session, fs: string, name: string, kind: string) returns (r: Outcome<(), Error>)
    requires WellFormed(s.st)
    modifies s
    ensures s.clock > old(s.clock)
    ensures Within(old(s.st), s.st, fs, Only(name))
    ensures GroupTable(s.st) == GroupTable(old(s.st))
    ensures r.Ok? ==> exists u :: u in s.st.perms && s.st.perms[u] == Permission(fs, name, kind)
    // Whatever was lost: no other type is left exactly if there was none but the one listed first.
    ensures r.Ok? ==> (Exclusive(s.st, fs, name, kind) <==> Replaceable(old(s.st), fs, name, kind))
    ensures s.Reliable(old(s.clock)) ==> r.Ok?
    ensures s.Reliable(old(s.clock)) && UniquePerms(old(s.st), fs) ==>
      var v := ExportsOf(old(s.st), fs);
      UniquePerms(s.st, fs) && ExportsOf(s.st, fs) == v.(perms := v.perms[name := kind])
  {
    hide Serve, WellFormed, Within, ExportsOf, PermTable, UniquePerms, Exclusive, Replaceable, Repeat, Session.Ends,
      Session.FirstReplyLost, Session.Unseen, Session.AnsweredFrom;
    ghost var st0 := s.st;
    ghost var v := ExportsOf(st0, fs);
    WithinRefl(st0, fs, Only(name));
    var perm :- FindPermission(s, fs, name);
    PermLookupView(st0, fs, name);
    if perm.Some? {
      var (u, p) := perm.value;
      if p.kind == kind {
        assert v.perms[name := kind] == v.perms || !UniquePerms(st0, fs);
        FirstOfKind(st0, fs, name, kind, u);
        return Ok(());
      }
      DeletePermEffect(st0, fs, u);
      var a, _ := s.Call(DeletePerm(u));
      if a.Refused? {
        return Raised(a.error);
      }
      assert (v.perms - {name})[name := kind] == v.perms[name := kind];
    }
    ghost var st1 := s.st;
    WithinWellFormed(st0, st1, fs, Only(name));
    CreatePermEffect(st1, fs, name, kind);
    var a, served := s.Call(CreatePerm(name, fs, kind));
    RepeatCreatePerm(st1, fs, name, kind, served);
    WithinTrans(st0, st1, s.st, fs, Only(name));
    if a.Refused? {
      return Raised(a.error);
    }
    OnlyOfKindAdded(st0, st1, s.st, fs, name, kind, if perm.Some? then Some(perm.value.0) else None);
    return Ok(());
  }

  /** If the first one listed has the type, only it matters whether another has not. */
  lemma FirstOfKind(st: State, fs: string, name: string, kind: string, u: Uid)
    requires u in st.perms && st.perms[u] == Permission(fs, name, kind)
    requires forall w | w in st.perms && st.perms[w].fs == fs && st.perms[w].group == name :: u <= w
    ensures Exclusive(st, fs, name, kind) <==> Replaceable(st, fs, name, kind)
  {
    assert Carries(PermTable(st, fs), u, name);
  }

  /** The first one listed, of another type, is gone, or there was none; and one of the type is new. */
  lemma OnlyOfKindAdded(st: State, mid: State, st': State, fs: string, name: string, kind: string, first: Option<Uid>)
    requires match first
             case None => mid.perms == st.perms && forall w | w in st.perms :: !(st.perms[w].fs == fs && st.perms[w].group == name)
             case Some(u) =>
               && u in st.perms && st.perms[u].fs == fs && st.perms[u].group == name && st.perms[u].kind != kind
               && mid.perms == st.perms - {u}
               && forall w | w in st.perms && st.perms[w].fs == fs && st.perms[w].group == name :: u <= w
    requires forall u | u in mid.perms :: u in st'.perms && st'.perms[u] == mid.perms[u]
    requires forall u | u in st'.perms && u !in mid.perms :: st'.perms[u] == Permission(fs, name, kind)
    ensures Exclusive(st', fs, name, kind) <==> Replaceable(st, fs, name, kind)
  {
    var t, t' := PermTable(st, fs), PermTable(st', fs);
    forall u | Carries(t, u, name) && Some(u) != first
      ensures Carries(t', u, name) && t'[u].value == t[u].value
    {
      assert u in mid.perms;
    }
    if Replaceable(st, fs, name, kind) {
      forall u | Carries(t', u, name)
        ensures t'[u].value == kind
      {
        if u in mid.perms && mid.perms[u].kind != kind {
          assert Carries(t, u, name) && first.Some? && Carries(t, first.value, name);
        }
      }
    }
  }

  /** The condition can fail: an rw creation whose reply is lost and is sent again leaves two rw
      permissions, and a change to ro replaces the first and reports success. */
  lemma LostReplyDefeatsExclusion(st: State, fs: string, name: string)
    requires WellFormed(st) && forall u | u in st.perms :: !(st.perms[u].fs == fs && st.perms[u].group == name)
    ensures var two := Repeat(st, CreatePerm(name, fs, "RW"), 2);
      && !Replaceable(two, fs, name, "RO")
      && two.perms == st.perms[st.next := Permission(fs, name, "RW")][st.next + 1 := Permission(fs, name, "RW")]
      && var after := Serve(Serve(two, DeletePerm(st.next)).0, CreatePerm(name, fs, "RO")).0;
         && !Exclusive(after, fs, name, "RO")
         && exists u :: u in after.perms && after.perms[u] == Permission(fs, name, "RO")
  {
    hide Serve, Repeat, Exclusive, Replaceable, WellFormed;
    var rw := Permission(fs, name, "RW");
    var two := WithPerm(WithPerm(st, rw), rw);
    CreatedTwice(st, name, fs, "RW");
    TwoOfTheSame(st, fs, name);
    FirstDeleted(two, st.next);
    var gone := two.(perms := two.perms - {st.next});
    PermServed(gone, name, fs, "RO");
    assert gone.perms[st.next + 1] == rw;
    OneOfEach(gone, st.next + 1, fs, name);
  }

  lemma CreatedTwice(st: State, name: string, fs: string, kind: string)
    ensures var p := Permission(fs, name, kind);
      Repeat(st, CreatePerm(name, fs, kind), 2) == WithPerm(WithPerm(st, p), p)
  {
    hide Serve, Repeat;
    PermServed(st, name, fs, kind);
    PermServed(WithPerm(st, Permission(fs, name, kind)), name, fs, kind);
    RepeatStep(st, CreatePerm(name, fs, kind), 0);
    RepeatStep(st, CreatePerm(name, fs, kind), 1);
  }

  lemma FirstDeleted(st: State, u: Uid)
    requires u in st.perms
    ensures Serve(st, DeletePerm(u)).0 == st.(perms := st.perms - {u})
  {
  }

  function WithPerm(st: State, p: Permission): State
  {
    st.(perms := st.perms[st.next := p], next := st.next + 1)
  }

  lemma PermServed(st: State, name: string, fs: string, kind: string)
    ensures Serve(st, CreatePerm(name, fs, kind)).0 == WithPerm(st, Permission(fs, name, kind))
  {
  }

  lemma TwoOfTheSame(st: State, fs: string, name: string)
    ensures var rw := Permission(fs, name, "RW");
      !Replaceable(WithPerm(WithPerm(st, rw), rw), fs, name, "RO")
  {
    var rw := Permission(fs, name, "RW");
    var t := PermTable(WithPerm(WithPerm(st, rw), rw), fs);
    assert Carries(t, st.next, name) && Carries(t, st.next + 1, name);
  }

  lemma OneOfEach(st: State, u: Uid, fs: string, name: string)
    requires u in st.perms && st.perms[u] == Permission(fs, name, "RW") && u != st.next
    ensures var after := WithPerm(st, Permission(fs, name, "RO"));
      && !Exclusive(after, fs, name, "RO")
      && exists w :: w in after.perms && after.perms[w] == Permission(fs, name, "RO")
  {
    var after := WithPerm(st, Permission(fs, name, "RO"));
    assert Carries(PermTable(after, fs), u, name);
    assert after.perms[st.next] == Permission(fs, name, "RO");
  }

  /** However often a lossy channel makes the server create the permission, only it is added. */
  lemma {:induction false} RepeatCreatePerm(st: State, fs: string, name: string, kind: string, n: nat)
    requires WellFormed(st)
    ensures var st' := Repeat(st, CreatePerm(name, fs, kind), n);
      && Within(st, st', fs, Only(name)) && st'.groups == st.groups
      && (forall u | u in st.perms :: u in st'.perms && st'.perms[u] == st.perms[u])
      && (forall u | u in st'.perms && u !in st.perms :: st'.perms[u] == Permission(fs, name, kind))
      && (n > 0 ==> exists u :: u in st'.perms && st'.perms[u] == Permission(fs, name, kind))
  {
    hide Within, WellFormed, Serve;
    if n == 0 {
      WithinRefl(st, fs, Only(name));
    } else {
      var mid := Repeat(st, CreatePerm(name, fs, kind), n - 1);
      RepeatCreatePerm(st, fs, name, kind, n - 1);
      WithinWellFormed(st, mid, fs, Only(name));
      CreatePermEffect(mid, fs, name, kind);
      var st' := Serve(mid, CreatePerm(name, fs, kind)).0;
      WithinTrans(st, mid, st', fs, Only(name));
      assert st'.perms[mid.next] == Permission(fs, name, kind);
    }
  }

  /** _apply_nfs_rule: group, address, permission. */
  method ApplyRule(s: Session, share: Share, rule: Rule) returns (r: Outcome<(), Error>)
    requires WellFormed(s.st)
    modifies s
    ensures s.clock >= old(s.clock)
    ensures Within(old(s.st), s.st, share.fsName, Only(GroupName(share.id, rule.id)))
    ensures View.AddressOf(rule.to).None? ==> r == Raised(InvalidAccess) && s.st == old(s.st)
    // Whatever fails: a rule that was applied has a permission of its type on a group with its address.
    ensures r.Ok? ==>
      && View.AddressOf(rule.to).Some?
      && (exists u :: u in s.st.perms && s.st.perms[u] == Permission(share.fsName, GroupName(share.id, rule.id), View.KindOf(rule)))
      && View.AddressOf(rule.to).value in View.Addresses(ExportsOf(s.st, share.fsName), GroupName(share.id, rule.id))
      && (Exclusive(s.st, share.fsName, GroupName(share.id, rule.id), View.KindOf(rule)) <==>
          Replaceable(old(s.st), share.fsName, GroupName(share.id, rule.id), View.KindOf(rule)))
    ensures s.Reliable(old(s.clock)) && View.AddressOf(rule.to).Some? && UniquePerms(old(s.st), share.fsName) ==>
      && r.Ok? && UniquePerms(s.st, share.fsName)
      && ExportsOf(s.st, share.fsName) ==
         View.ApplyOne(ExportsOf(old(s.st), share.fsName),
                       Binding(GroupName(share.id, rule.id), View.Export(View.AddressOf(rule.to).value, View.KindOf(rule))))
    // In the cluster's terms: an applied rule is allowed, at its level only if no group had two
    // permissions; a malformed network is refused; and with nothing lost every other rule is applied.
    ensures r.Ok? ==> Allowed(s.st, share, rule) && (OnePerGroup(old(s.st), share) ==> OnlyAtLevel(s.st, share, rule))
    ensures '/' in rule.to && Net.Parse(rule.to).None? ==> r == Raised(InvalidAccess) && s.st == old(s.st)
    ensures s.Reliable(old(s.clock)) && OnePerGroup(old(s.st), share) ==>
      OnePerGroup(s.st, share) && (r.Ok? <==> !('/' in rule.to && Net.Parse(rule.to).None?))
  {
    hide Serve, WellFormed, Within, ExportsOf, PermTable, UniquePerms, Exclusive, Replaceable, GroupName, GroupTable,
      Net.Norm, Net.Echo, Net.ToWeka, Net.Parse, View.KindOf, Allowed, OnePerGroup, OnlyAtLevel;
    UniqueInFull(s.st, share);
    Net.ToWekaExactly(rule.to);
    var fs, name, kind := share.fsName, GroupName(share.id, rule.id), View.KindOf(rule);
    WithinRefl(s.st, fs, Only(name));
    var weka := Net.ToWeka(rule.to);
    if weka.None? {
      return Raised(InvalidAccess);
    }
    r := EnsureAddress(s, fs, name, weka.value);
    ghost var st1 := s.st;
    WithinWellFormed(old(s.st), st1, fs, Only(name));
    SamePermTable(old(s.st), st1, fs);
    if r.Raised? {
      return;
    }
    r := EnsurePermission(s, fs, name, kind);
    SameGroupTable(st1, s.st, fs);
    WithinTrans(old(s.st), st1, s.st, fs, Only(name));
    UniqueInFull(s.st, share);
    if r.Ok? {
      AppliedInFull(old(s.st), s.st, share, rule);
    }
  }

  lemma AppliedInFull(st: State, st': State, share: Share, rule: Rule)
    requires Within(st, st', share.fsName, Only(GroupName(share.id, rule.id)))
    requires View.AddressOf(rule.to).Some?
    ensures
      && View.AddressOf(rule.to).value in View.Addresses(ExportsOf(st', share.fsName), GroupName(share.id, rule.id))
      && (exists u :: u in st'.perms && st'.perms[u] == Permission(share.fsName, GroupName(share.id, rule.id), View.KindOf(rule))) ==>
        Allowed(st', share, rule)
    ensures
      (Replaceable(st, share.fsName, GroupName(share.id, rule.id), View.KindOf(rule)) ==>
        Exclusive(st', share.fsName, GroupName(share.id, rule.id), View.KindOf(rule))) ==>
      (OnePerGroup(st, share) ==> OnlyAtLevel(st', share, rule))
  {
    UniqueInFull(st, share);
    ExclusiveInFull(st', share, rule);
    WithinWellFormed(st, st', share.fsName, Only(GroupName(share.id, rule.id)));
    hide WellFormed, ExportsOf, UniquePerms, Exclusive, Replaceable, GroupName, View.KindOf, View.AddressOf, Allowed, OnlyAtLevel;
    if && View.AddressOf(rule.to).value in View.Addresses(ExportsOf(st', share.fsName), GroupName(share.id, rule.id))
       && (exists u :: u in st'.perms && st'.perms[u] == Permission(share.fsName, GroupName(share.id, rule.id), View.KindOf(rule))) {
      ExportedIsAllowed(st', share, rule);
    }
    if OnePerGroup(st, share) {
      UniqueIsReplaceable(st, share.fsName, GroupName(share.id, rule.id), View.KindOf(rule));
    }
  }

  lemma SamePermTable(st: State, st': State, fs: string)
    requires PermTable(st', fs) == PermTable(st, fs)
    ensures UniquePerms(st', fs) <==> UniquePerms(st, fs)
    ensures ExportsOf(st', fs).perms == ExportsOf(st, fs).perms
    ensures forall name, kind :: Replaceable(st', fs, name, kind) <==> Replaceable(st, fs, name, kind)
  {
    hide PermTable, ByKey;
  }

  lemma SameGroupTable(st: State, st': State, fs: string)
    requires GroupTable(st') == GroupTable(st)
    ensures ExportsOf(st', fs).groups == ExportsOf(st, fs).groups
  {
  }
}
