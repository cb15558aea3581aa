/** NFS access rules: one client group, its addresses and one permission per rule. */
module Nfs {
  import opened Results
  import opened RuleMaps
  import opened Cluster
  import opened Tables
  import View = NfsView
  import Net

  // ---- reading the exports of a filesystem off the cluster state ----

  ghost function GroupUid(st: State, name: string): (r: Option<Uid>)
    ensures r.None? <==> forall u | u in st.groups :: st.groups[u].name != name
    ensures r.Some? ==> r.value in st.groups && st.groups[r.value].name == name
  {
    if exists u :: u in st.groups && st.groups[u].name == name then
      var u :| u in st.groups && st.groups[u].name == name; Some(u)
    else None
  }

  /** Permissions on one filesystem, by group name. */
  ghost function PermTable(st: State, fs: string): Table<string>
  {
    map u | u in st.perms && st.perms[u].fs == fs :: Binding(st.perms[u].group, st.perms[u].kind)
  }

  /** The normalised addresses of a group. */
  function AddressesOf(g: Group): set<string>
  {
    set r | r in g.rules :: Net.Norm(g.rules[r])
  }

  ghost function GroupTable(st: State): Table<set<string>>
  {
    map u | u in st.groups :: Binding(st.groups[u].name, AddressesOf(st.groups[u]))
  }

  /** At most one permission per group on the filesystem. */
  ghost predicate UniquePerms(st: State, fs: string)
  {
    Unique(PermTable(st, fs))
  }

  /** The group's permissions on the filesystem all have the type: nobody gets in by another. */
  ghost predicate Exclusive(st: State, fs: string, name: string, kind: string)
  {
    var t := PermTable(st, fs);
    forall u | Carries(t, u, name) :: t[u].value == kind
  }

  /** Of the group's permissions on the filesystem none has another type, or only the one that is
      listed first. */
  ghost predicate Replaceable(st: State, fs: string, name: string, kind: string)
  {
    var t := PermTable(st, fs);
    forall u, w | Carries(t, u, name) && t[u].value != kind && Carries(t, w, name) :: u <= w
  }

  lemma UniqueIsReplaceable(st: State, fs: string, name: string, kind: string)
    requires UniquePerms(st, fs)
    ensures Replaceable(st, fs, name, kind)
  {
  }

  ghost function ExportsOf(st: State, fs: string): View.Exports
  {
    View.Exports(ByKey(PermTable(st, fs)), ByKey(GroupTable(st)))
  }

  // ---- frames ----

  /** Everything but the permissions on `fs` and the groups with a touched name is as before. */
  ghost predicate OnlyTouches(st: State, st': State, fs: string, touched: string -> bool)
  {
    && st'.users == st.users && st'.filesystems == st.filesystems && st'.free == st.free
    && st'.policies == st.policies && st'.attached == st.attached
    && (forall u | u in st.perms && !(st.perms[u].fs == fs && touched(st.perms[u].group)) ::
          u in st'.perms && st'.perms[u] == st.perms[u])
    && (forall u | u in st'.perms && !(st'.perms[u].fs == fs && touched(st'.perms[u].group)) ::
          u in st.perms && st'.perms[u] == st.perms[u])
    && (forall u | u in st.groups && !touched(st.groups[u].name) :: u in st'.groups && st'.groups[u] == st.groups[u])
    && (forall u | u in st'.groups && !touched(st'.groups[u].name) :: u in st.groups && st'.groups[u] == st.groups[u])
  }

  ghost predicate Within(st: State, st': State, fs: string, touched: string -> bool)
  {
    WellFormed(st') && OnlyTouches(st, st', fs, touched)
  }

  lemma WithinTrans(a: State, b: State, c: State, fs: string, touched: string -> bool)
    requires Within(a, b, fs, touched) && Within(b, c, fs, touched)
    ensures Within(a, c, fs, touched)
  {
    hide WellFormed;
  }

  lemma WithinWider(a: State, b: State, fs: string, touched: string -> bool, more: string -> bool)
    requires Within(a, b, fs, touched)
    requires forall n | touched(n) :: more(n)
    ensures Within(a, b, fs, more)
  {
    hide WellFormed;
  }

  lemma WithinRefl(st: State, fs: string, touched: string -> bool)
    requires WellFormed(st)
    ensures Within(st, st, fs, touched)
  {
  }

  /** A name that is not touched keeps its permissions. */
  lemma UntouchedPerms(st: State, st': State, fs: string, touched: string -> bool, name: string, kind: string)
    requires Within(st, st', fs, touched) && !touched(name)
    ensures Exclusive(st', fs, name, kind) <==> Exclusive(st, fs, name, kind)
    ensures Replaceable(st', fs, name, kind) <==> Replaceable(st, fs, name, kind)
  {
    hide WellFormed;
    var t, t' := PermTable(st, fs), PermTable(st', fs);
    forall u
      ensures Carries(t', u, name) <==> Carries(t, u, name)
      ensures Carries(t, u, name) ==> t'[u].value == t[u].value
    {
      if u in st.perms && st.perms[u].group == name {
        assert u in st'.perms && st'.perms[u] == st.perms[u];
      }
      if u in st'.perms && st'.perms[u].group == name {
        assert u in st.perms && st'.perms[u] == st.perms[u];
      }
    }
    hide PermTable, OnlyTouches;
  }

  function Only(name: string): string -> bool
  {
    n => n == name
  }

  // ---- the effect of each request ----

  lemma GroupIs(st: State, name: string, u: Uid)
    requires WellFormed(st) && u in st.groups && st.groups[u].name == name
    ensures GroupUid(st, name) == Some(u)
  {
  }

  lemma GroupsUnique(st: State)
    requires WellFormed(st)
    ensures Unique(GroupTable(st))
  {
  }

  lemma GroupLookup(st: State, name: string)
    requires WellFormed(st)
    ensures GroupUid(st, name).None? <==> name !in ByKey(GroupTable(st))
    ensures GroupUid(st, name).Some? ==> ByKey(GroupTable(st))[name] == AddressesOf(st.groups[GroupUid(st, name).value])
  {
    hide AddressesOf, ByKey, Unique, WellFormed;
    GroupsUnique(st);
    var t := GroupTable(st);
    KeysAreCarried(t, name);
    match GroupUid(st, name)
    case Some(u) =>
      assert Carries(t, u, name);
      Lookup(t, u);
    case None =>
      forall u
        ensures !Carries(t, u, name)
      {
      }
  }

  /** A client group created or given an address, seen in the view. */
  lemma GroupWritten(st: State, st': State, fs: string, u: Uid)
    requires WellFormed(st) && WellFormed(st') && u in st'.groups && st'.groups == st.groups[u := st'.groups[u]]
    requires st'.perms == st.perms
    requires if u in st.groups then st.groups[u].name == st'.groups[u].name else GroupUid(st, st'.groups[u].name).None?
    ensures PermTable(st', fs) == PermTable(st, fs)
    ensures ExportsOf(st', fs) ==
            ExportsOf(st, fs).(groups := ExportsOf(st, fs).groups[st'.groups[u].name := AddressesOf(st'.groups[u])])
  {
    hide AddressesOf, ByKey, Unique, WellFormed;
    GroupsUnique(st);
    var b := Binding(st'.groups[u].name, AddressesOf(st'.groups[u]));
    GroupLookup(st, b.key);
    GroupTableWritten(st, st', u);
    assert PermTable(st', fs) == PermTable(st, fs);
    Written(GroupTable(st), u, b);
  }

  lemma GroupTableWritten(st: State, st': State, u: Uid)
    requires u in st'.groups && st'.groups == st.groups[u := st'.groups[u]]
    ensures GroupTable(st') == GroupTable(st)[u := Binding(st'.groups[u].name, AddressesOf(st'.groups[u]))]
    ensures u in st.groups ==> u in GroupTable(st) && GroupTable(st)[u].key == st.groups[u].name
  {
    hide AddressesOf;
  }

  lemma GroupErased(st: State, st': State, fs: string, u: Uid)
    requires WellFormed(st) && u in st.groups && st'.groups == st.groups - {u} && st'.perms == st.perms
    ensures PermTable(st', fs) == PermTable(st, fs)
    ensures ExportsOf(st', fs) == ExportsOf(st, fs).(groups := ExportsOf(st, fs).groups - {st.groups[u].name})
  {
    hide AddressesOf, ByKey, Unique, WellFormed;
    GroupsUnique(st);
    Erased(GroupTable(st), u);
    assert GroupTable(st') == GroupTable(st) - {u};
    assert PermTable(st', fs) == PermTable(st, fs);
  }

  lemma PermWritten(st: State, st': State, fs: string, u: Uid, p: Permission)
    requires UniquePerms(st, fs) && u !in st.perms && st'.perms == st.perms[u := p] && p.fs == fs && st'.groups == st.groups
    ensures p.group !in ExportsOf(st, fs).perms ==>
      && UniquePerms(st', fs)
      && ExportsOf(st', fs) == ExportsOf(st, fs).(perms := ExportsOf(st, fs).perms[p.group := p.kind])
  {
    hide ByKey, Unique, AddressesOf;
    var b := Binding(p.group, p.kind);
    assert PermTable(st', fs) == PermTable(st, fs)[u := b];
    assert GroupTable(st') == GroupTable(st);
    if p.group !in ExportsOf(st, fs).perms {
      Written(PermTable(st, fs), u, b);
    }
  }

  lemma PermErased(st: State, st': State, fs: string, u: Uid)
    requires UniquePerms(st, fs) && u in st.perms && st.perms[u].fs == fs && st'.perms == st.perms - {u} && st'.groups == st.groups
    ensures UniquePerms(st', fs)
    ensures ExportsOf(st', fs) == ExportsOf(st, fs).(perms := ExportsOf(st, fs).perms - {st.perms[u].group})
  {
    hide ByKey, Unique, AddressesOf;
    assert PermTable(st', fs) == PermTable(st, fs) - {u};
    assert GroupTable(st') == GroupTable(st);
    Erased(PermTable(st, fs), u);
  }
}
