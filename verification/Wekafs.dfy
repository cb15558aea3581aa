/** WEKAFS access rules: per-share security policies created on first use, deleted on last. */
module Wekafs {
  import opened Results
  import opened Rules
  import opened Cluster
  import opened AccessView

  // ---- reading a share's view off the cluster state ----

  ghost function FindPolicy(st: State, name: string): (r: Option<Uid>)
    ensures r.None? <==> forall u | u in st.policies :: st.policies[u].name != name
    ensures r.Some? ==> r.value in st.policies && st.policies[r.value].name == name
  {
    if exists u :: u in st.policies && st.policies[u].name == name then
      var u :| u in st.policies && st.policies[u].name == name; Some(u)
    else None
  }

  ghost function FindFs(st: State, name: string): (r: Option<Uid>)
    ensures r.None? <==> forall u | u in st.filesystems :: st.filesystems[u].name != name
    ensures r.Some? ==> r.value in st.filesystems && st.filesystems[r.value].name == name
  {
    if exists u :: u in st.filesystems && st.filesystems[u].name == name then
      var u :| u in st.filesystems && st.filesystems[u].name == name; Some(u)
    else None
  }

  ghost function LevelViewOf(st: State, fs: Option<Uid>, name: string): LevelView
  {
    match FindPolicy(st, name)
    case None => Absent
    case Some(u) =>
      Present((set x | x in st.policies[u].ips), st.policies[u].readOnly, fs.Some? && (fs.value, u) in st.attached)
  }

  ghost function ViewOf(st: State, share: Share, fs: Option<Uid>): View
  {
    View(LevelViewOf(st, fs, PolicyName(share.id, RW)), LevelViewOf(st, fs, PolicyName(share.id, RO)))
  }

  ghost function OwnNames(share: Share): set<string>
  {
    {PolicyName(share.id, RW), PolicyName(share.id, RO)}
  }

  // ---- frames ----

  /** Everything but the users, of whom none goes, and the policies of the given names is as
      before, and new attachments are to `fs`. */
  ghost predicate SameExcept(st: State, st': State, fs: Option<Uid>, names: set<string>)
  {
    && st'.filesystems == st.filesystems && st'.free == st.free && st'.groups == st.groups && st'.perms == st.perms
    && st.users <= st'.users
    && (forall u | u in st.policies && st.policies[u].name !in names :: u in st'.policies && st'.policies[u] == st.policies[u])
    && (forall u | u in st'.policies && st'.policies[u].name !in names :: u in st.policies && st'.policies[u] == st.policies[u])
    && (forall a: (Uid, Uid) | a.1 in st.policies && st.policies[a.1].name !in names :: a in st'.attached <==> a in st.attached)
    && (forall a | a in st'.attached && a !in st.attached :: Some(a.0) == fs)
  }

  /** Whatever a call that only touches `ip` does to one level: the other addresses stay, the
      policy stays attached while it has any, and a new policy gets the level's flag. */
  predicate Nudged(lv: LevelView, lv': LevelView, ip: string, readOnly: bool)
  {
    && lv'.Ips() - {ip} == lv.Ips() - {ip}
    && (lv.Present? && lv.attached && lv.ips - {ip} != {} ==> lv'.Present? && lv'.attached)
    && (lv.Present? && lv'.Present? ==> lv'.readOnly == lv.readOnly || lv'.readOnly == readOnly)
    && (lv.Absent? && lv'.Present? ==> lv'.readOnly == readOnly)
  }

  ghost predicate Reach(st: State, st': State, fs: Option<Uid>, name: string, ip: string, readOnly: bool)
  {
    && WellFormed(st')
    && SameExcept(st, st', fs, {name})
    && Nudged(LevelViewOf(st, fs, name), LevelViewOf(st', fs, name), ip, readOnly)
  }

  lemma ReachTrans(a: State, b: State, c: State, fs: Option<Uid>, name: string, ip: string, readOnly: bool)
    requires Reach(a, b, fs, name, ip, readOnly) && Reach(b, c, fs, name, ip, readOnly)
    ensures Reach(a, c, fs, name, ip, readOnly)
  {
    hide WellFormed, LevelViewOf;
    SameExceptTrans(a, b, c, fs, {name});
  }

  lemma SameExceptTrans(a: State, b: State, c: State, fs: Option<Uid>, names: set<string>)
    requires SameExcept(a, b, fs, names) && SameExcept(b, c, fs, names)
    ensures SameExcept(a, c, fs, names)
  {
  }

  lemma FindIs(st: State, name: string, u: Uid)
    requires WellFormed(st) && u in st.policies && st.policies[u].name == name
    ensures FindPolicy(st, name) == Some(u)
  {
  }

  lemma FsIs(st: State, name: string, u: Uid)
    requires WellFormed(st) && u in st.filesystems && st.filesystems[u].name == name
    ensures FindFs(st, name) == Some(u)
  {
  }

  /** A policy name outside the frame keeps its view. */
  lemma ForeignView(st: State, st': State, fs: Option<Uid>, names: set<string>, name: string, fs': Option<Uid>)
    requires WellFormed(st) && WellFormed(st') && SameExcept(st, st', fs, names) && name !in names
    ensures FindPolicy(st', name) == FindPolicy(st, name)
    ensures LevelViewOf(st', fs', name) == LevelViewOf(st, fs', name)
  {
    match FindPolicy(st, name)
    case Some(u) =>
      FindIs(st', name, u);
      if fs'.Some? {
        assert (fs'.value, u) in st'.attached <==> (fs'.value, u) in st.attached;
      }
    case None =>
  }

  // ---- the effect of each request on the policy it addresses ----

  /** A policy created. */
  function WithPolicy(st: State, p: Policy): State
  {
    st.(policies := st.policies[st.next := p], next := st.next + 1)
  }

  lemma WithPolicyView(st: State, fs: Option<Uid>, p: Policy)
    requires WellFormed(st) && FindPolicy(st, p.name).None?
    ensures var st' := WithPolicy(st, p);
      && WellFormed(st') && SameExcept(st, st', fs, {p.name})
      && FindPolicy(st', p.name) == Some(st.next)
      && LevelViewOf(st', fs, p.name) == Present((set ip | ip in p.ips), p.readOnly, false)
  {
    WithPolicyWellFormed(st, p);
    FindIs(WithPolicy(st, p), p.name, st.next);
    NewPolicyIsNew(st);
    hide WellFormed, FindPolicy;
  }

  lemma WithPolicyWellFormed(st: State, p: Policy)
    requires WellFormed(st) && FindPolicy(st, p.name).None?
    ensures WellFormed(WithPolicy(st, p))
  {
  }

  lemma NewPolicyIsNew(st: State)
    requires WellFormed(st)
    ensures st.next !in st.policies && forall a | a in st.attached :: a.1 != st.next
  {
  }

  lemma CreateServed(st: State, name: string, ips: seq<string>, readOnly: bool)
    requires FindPolicy(st, name).None?
    ensures var op := CreatePolicy(name, ips, readOnly);
      && Serve(st, op) == (WithPolicy(st, Policy(name, ips, readOnly)), Created(st.next))
      && Serve(Serve(st, op).0, op).1 == Refused(Conflict)
  {
    assert WithPolicy(st, Policy(name, ips, readOnly)).policies[st.next].name == name;
  }

  lemma CreateEffect(st: State, fs: Option<Uid>, name: string, ip: string, readOnly: bool)
    requires WellFormed(st) && FindPolicy(st, name).None?
    ensures var op := CreatePolicy(name, [ip], readOnly);
      && Serve(st, op).1 == Created(st.next)
      && Serve(Serve(st, op).0, op).1 == Refused(Conflict)
      && FindPolicy(Serve(st, op).0, name) == Some(st.next)
      && Reach(st, Serve(st, op).0, fs, name, ip, readOnly)
      && LevelViewOf(Serve(st, op).0, fs, name) == Present({ip}, readOnly, false)
  {
    hide Serve, WellFormed, FindPolicy, SameExcept, LevelViewOf, WithPolicy;
    CreateServed(st, name, [ip], readOnly);
    WithPolicyView(st, fs, Policy(name, [ip], readOnly));
    ViewOfFound(st, fs, name);
    assert (set x | x in [ip]) == {ip};
  }

  /** A policy whose addresses are rewritten and nothing else. */
  function Rewritten(st: State, u: Uid, ips: seq<string>): State
    requires u in st.policies
  {
    st.(policies := st.policies[u := st.policies[u].(ips := ips)])
  }

  lemma RewrittenView(st: State, fs: Option<Uid>, name: string, u: Uid, ips: seq<string>)
    requires WellFormed(st) && FindPolicy(st, name) == Some(u)
    ensures var st' := Rewritten(st, u, ips);
      && WellFormed(st') && SameExcept(st, st', fs, {name})
      && FindPolicy(st', name) == Some(u)
      && LevelViewOf(st', fs, name) == LevelViewOf(st, fs, name).(ips := set x | x in ips)
  {
    RewrittenWellFormed(st, u, ips);
    FindIs(Rewritten(st, u, ips), name, u);
    hide WellFormed, FindPolicy;
  }

  lemma RewrittenWellFormed(st: State, u: Uid, ips: seq<string>)
    requires WellFormed(st) && u in st.policies
    ensures WellFormed(Rewritten(st, u, ips))
  {
  }

  /** Rewriting that leaves all addresses but one alone is a change on that one's behalf. */
  lemma RewrittenReach(st: State, fs: Option<Uid>, name: string, u: Uid, ips: seq<string>, ip: string, readOnly: bool)
    requires WellFormed(st) && FindPolicy(st, name) == Some(u)
    requires (set x | x in ips) - {ip} == LevelViewOf(st, fs, name).ips - {ip}
    ensures var st' := Rewritten(st, u, ips);
      && Reach(st, st', fs, name, ip, readOnly)
      && FindPolicy(st', name) == Some(u)
      && LevelViewOf(st', fs, name) == LevelViewOf(st, fs, name).(ips := set x | x in ips)
  {
    RewrittenView(st, fs, name, u, ips);
    hide WellFormed, FindPolicy, SameExcept, Rewritten;
  }

  lemma AddServed(st: State, u: Uid, ip: string)
    requires u in st.policies
    ensures Serve(st, AddIp(u, ip)) ==
            if ip in st.policies[u].ips then (st, Refused(AlreadyExists)) else (Rewritten(st, u, st.policies[u].ips + [ip]), Done)
  {
  }

  lemma AddEffect(st: State, fs: Option<Uid>, name: string, u: Uid, ip: string, readOnly: bool)
    requires WellFormed(st) && FindPolicy(st, name) == Some(u)
    ensures var op, lv := AddIp(u, ip), LevelViewOf(st, fs, name);
      && Serve(st, op).1 == (if ip in lv.ips then Refused(AlreadyExists) else Done)
      && FindPolicy(Serve(st, op).0, name) == Some(u)
      && Reach(st, Serve(st, op).0, fs, name, ip, readOnly)
      && LevelViewOf(Serve(st, op).0, fs, name) == lv.(ips := lv.ips + {ip})
  {
    hide Serve, WellFormed, FindPolicy, LevelViewOf, Rewritten, Reach;
    ViewOfFound(st, fs, name);
    var ips, lv := st.policies[u].ips, LevelViewOf(st, fs, name);
    AddServed(st, u, ip);
    if ip in ips {
      ReachRefl(st, fs, name, ip, readOnly);
      assert lv.ips + {ip} == lv.ips;
    } else {
      assert (set x | x in ips + [ip]) == lv.ips + {ip};
      assert lv.ips + {ip} - {ip} == lv.ips - {ip};
      RewrittenReach(st, fs, name, u, ips + [ip], ip, readOnly);
    }
  }

  lemma StillThere(st: State, u: Uid, ips: seq<string>)
    requires u in st.policies
    ensures u in Rewritten(st, u, ips).policies
  {
  }

  lemma RemoveServed(st: State, u: Uid, ip: string)
    requires u in st.policies
    ensures Serve(st, RemoveIp(u, ip)) == (Rewritten(st, u, Without(st.policies[u].ips, ip)), Done)
  {
  }

  lemma RemoveEffect(st: State, fs: Option<Uid>, name: string, u: Uid, ip: string, readOnly: bool)
    requires WellFormed(st) && FindPolicy(st, name) == Some(u)
    ensures var op, lv := RemoveIp(u, ip), LevelViewOf(st, fs, name);
      && Serve(st, op).1 == Done && Serve(Serve(st, op).0, op).1 == Done
      && FindPolicy(Serve(st, op).0, name) == Some(u)
      && Reach(st, Serve(st, op).0, fs, name, ip, readOnly)
      && LevelViewOf(Serve(st, op).0, fs, name) == lv.(ips := lv.ips - {ip})
  {
    hide Serve, WellFormed, FindPolicy, LevelViewOf, Rewritten, Reach;
    ViewOfFound(st, fs, name);
    var ips, lv := st.policies[u].ips, LevelViewOf(st, fs, name);
    RemoveServed(st, u, ip);
    StillThere(st, u, Without(ips, ip));
    RemoveServed(Rewritten(st, u, Without(ips, ip)), u, ip);
    assert (set x | x in Without(ips, ip)) == lv.ips - {ip};
    RewrittenReach(st, fs, name, u, Without(ips, ip), ip, readOnly);
  }

  lemma AttachEffect(st: State, f: Uid, name: string, u: Uid, ip: string, readOnly: bool)
    requires WellFormed(st) && FindPolicy(st, name) == Some(u) && f in st.filesystems
    ensures var op, lv := Attach(f, u), LevelViewOf(st, Some(f), name);
      && Serve(st, op).1 == (if lv.attached then Refused(AlreadyPresent) else Done)
      && Reach(st, Serve(st, op).0, Some(f), name, ip, readOnly)
      && LevelViewOf(Serve(st, op).0, Some(f), name) == lv.(attached := true)
  {
    hide WellFormed;
    var op := Attach(f, u);
    ServeWellFormed(st, op);
    FindIs(Serve(st, op).0, name, u);
  }

  lemma DetachEffect(st: State, f: Uid, name: string, u: Uid, ip: string, readOnly: bool)
    requires WellFormed(st) && FindPolicy(st, name) == Some(u)
    requires LevelViewOf(st, Some(f), name).ips - {ip} == {}
    ensures var op, lv := Detach(f, u), LevelViewOf(st, Some(f), name);
      && Serve(st, op).1 == (if lv.attached then Done else Refused(Rejected))
      && FindPolicy(Serve(st, op).0, name) == Some(u)
      && Reach(st, Serve(st, op).0, Some(f), name, ip, readOnly)
      && LevelViewOf(Serve(st, op).0, Some(f), name) == lv.(attached := false)
  {
    hide WellFormed;
    var op := Detach(f, u);
    ServeWellFormed(st, op);
    FindIs(Serve(st, op).0, name, u);
  }

  lemma DeleteEffect(st: State, fs: Option<Uid>, name: string, u: Uid, ip: string, readOnly: bool)
    requires WellFormed(st) && FindPolicy(st, name) == Some(u)
    requires LevelViewOf(st, fs, name).ips - {ip} == {}
    ensures var op := DeletePolicy(u);
      && Serve(st, op).1 == Done
      && Reach(st, Serve(st, op).0, fs, name, ip, readOnly)
      && LevelViewOf(Serve(st, op).0, fs, name) == Absent
  {
    var op := DeletePolicy(u);
    ServeWellFormed(st, op);
  }

  // ---- lookups ----

  /** get_security_policy_by_name: a scan of the listing. */
  method GetPolicyByName(s: Session, name: string) returns (r: Outcome<Option<(Uid, Policy)>, Error>)
    requires WellFormed(s.st)
    modifies s`clock
    ensures s.clock > old(s.clock)
    ensures r.Ok? ==>
      && (r.value.None? <==> FindPolicy(s.st, name).None?)
      && (r.value.Some? ==> FindPolicy(s.st, name) == Some(r.value.value.0) && s.st.policies[r.value.value.0] == r.value.value.1)
    ensures s.clock == s.Ends(old(s.clock)) && (r.Ok? <==> s.AnsweredFrom(old(s.clock)))
    ensures s.Reliable(old(s.clock)) ==> r.Ok?
  {
    var e := s.Get();
    if e.Some? {
      return Raised(e.value);
    }
    var list := Listing(s.st.policies, s.st.next);
    for i := 0 to |list|
      invariant forall j | 0 <= j < i :: list[j].1.name != name
    {
      if list[i].1.name == name {
        FindIs(s.st, name, list[i].0);
        return Ok(Some(list[i]));
      }
    }
    forall u | u in s.st.policies
      ensures s.st.policies[u].name != name
    {
      assert (u, s.st.policies[u]) in list;
    }
    return Ok(None);
  }

  /** get_filesystem_by_name */
  method GetFilesystemByName(s: Session, name: string) returns (r: Outcome<Option<Uid>, Error>)
    requires WellFormed(s.st)
    modifies s`clock
    ensures s.clock > old(s.clock)
    ensures r.Ok? ==> r.value == FindFs(s.st, name)
    ensures s.clock == s.Ends(old(s.clock)) && (r.Ok? <==> s.AnsweredFrom(old(s.clock)))
    ensures r.Raised? ==> Unanswered(Refused(r.error))
    ensures s.Reliable(old(s.clock)) ==> r.Ok?
  {
    var e := s.Get();
    if e.Some? {
      return Raised(e.value);
    }
    var list := Listing(s.st.filesystems, s.st.next);
    for i := 0 to |list|
      invariant forall j | 0 <= j < i :: list[j].1.name != name
    {
      if list[i].1.name == name {
        return Ok(Some(list[i].0));
      }
    }
    forall u | u in s.st.filesystems
      ensures s.st.filesystems[u].name != name
    {
      assert (u, s.st.filesystems[u]) in list;
    }
    return Ok(None);
  }

  // ---- _policy_set_ip ----

  /** Adds an address to one level's policy, creating and attaching it. */
  method PolicyPutIp(s: Session, fs: Option<Uid>, name: string, level: Level, ip: string)
    returns (r: Outcome<(), Error>)
    requires WellFormed(s.st) && (fs.Some? ==> fs.value in s.st.filesystems)
    modifies s
    ensures s.clock > old(s.clock)
    ensures Reach(old(s.st), s.st, fs, name, ip, level.RO?)
    ensures r.Ok? ==> var lv := LevelViewOf(s.st, fs, name);
      lv.Present? && ip in lv.ips && (fs.Some? ==> lv.attached)
    ensures s.Reliable(old(s.clock)) ==>
      r.Ok? && LevelViewOf(s.st, fs, name) == Put(LevelViewOf(old(s.st), fs, name), level, ip, fs.Some?)
  {
    hide Serve, WellFormed, LevelViewOf, SameExcept, Nudged, FindPolicy, Repeat, Session.Ends, Session.FirstReplyLost,
      Session.Unseen, Session.AnsweredFrom;
    var readOnly := level.RO?;
    ReachRefl(s.st, fs, name, ip, readOnly);
    var pol :- GetPolicyByName(s, name);
    ghost var st0 := s.st;
    ViewOfFound(st0, fs, name);
    var uid: Uid;
    match pol {
      case None =>
        CreateEffect(st0, fs, name, ip, readOnly);
        var a, _ := s.Call(CreatePolicy(name, [ip], readOnly));
        if a.Refused? {
          return Raised(a.error);
        }
        uid := a.uid;
      case Some((u, p)) =>
        uid := u;
        if ip !in p.ips {
          AddEffect(st0, fs, name, u, ip, readOnly);
          var a, _ := s.Call(AddIp(u, ip));
          if a.Refused? && !IsAlreadyExists(a.error) {
            return Raised(a.error);
          }
        }
    }
    ghost var st1 := s.st;
    assert Reach(st0, st1, fs, name, ip, readOnly);
    assert FindPolicy(st1, name) == Some(uid);
    ViewOfFound(st1, fs, name);
    if fs.Some? {
      ReachKeepsFs(st0, st1, fs, name, ip, readOnly);
      AttachEffect(st1, fs.value, name, uid, ip, readOnly);
      var a, _ := s.Call(Attach(fs.value, uid));
      ReachRefl(st1, fs, name, ip, readOnly);
      ReachTrans(st0, st1, s.st, fs, name, ip, readOnly);
      if a.Refused? && !IsAlreadyExists(a.error) && !IsAlreadyAttached(a.error) {
        return Raised(a.error);
      }
    }
    return Ok(());
  }

  lemma ReachRefl(st: State, fs: Option<Uid>, name: string, ip: string, readOnly: bool)
    requires WellFormed(st)
    ensures Reach(st, st, fs, name, ip, readOnly)
  {
  }

  lemma ReachKeepsFs(st: State, st': State, fs: Option<Uid>, name: string, ip: string, readOnly: bool)
    requires Reach(st, st', fs, name, ip, readOnly)
    ensures st'.filesystems == st.filesystems && WellFormed(st')
  {
  }

  lemma ViewOfFound(st: State, fs: Option<Uid>, name: string)
    ensures FindPolicy(st, name).None? <==> LevelViewOf(st, fs, name).Absent?
    ensures FindPolicy(st, name).Some? ==>
      FindPolicy(st, name).value in st.policies &&
      forall x :: x in LevelViewOf(st, fs, name).ips <==> x in st.policies[FindPolicy(st, name).value].ips
  {
  }

  /** Removes an address from one level's policy; an emptied policy is detached and deleted. */
  method PolicyDropIp(s: Session, fs: Option<Uid>, name: string, ghost readOnly: bool, ip: string)
    returns (r: Outcome<(), Error>)
    requires WellFormed(s.st)
    modifies s
    ensures s.clock > old(s.clock)
    ensures Reach(old(s.st), s.st, fs, name, ip, readOnly)
    ensures r.Ok? ==> ip !in LevelViewOf(s.st, fs, name).Ips()
    ensures LevelViewOf(s.st, fs, name).Ips() <= LevelViewOf(old(s.st), fs, name).Ips()
    ensures s.Reliable(old(s.clock)) ==>
      r.Ok? && LevelViewOf(s.st, fs, name) == Drop(LevelViewOf(old(s.st), fs, name), ip)
    // If the deletion of the emptied policy is lost, it stays, empty and detached.
    ensures fs.Some? && DeletionLost(s, old(s.clock)) ==>
      var lv := LevelViewOf(old(s.st), fs, name);
      lv.Present? && lv.ips == {ip} ==> r.Raised? && LevelViewOf(s.st, fs, name) == Present({}, lv.readOnly, false)
  {
    hide Serve, WellFormed, LevelViewOf, SameExcept, FindPolicy, Repeat, Session.Ends, Session.FirstReplyLost,
      Session.AnsweredFrom, Session.Unseen;
    ReachRefl(s.st, fs, name, ip, readOnly);
    var pol :- GetPolicyByName(s, name);
    ghost var st0 := s.st;
    ViewOfFound(st0, fs, name);
    if pol.None? {
      return Ok(());
    }
    var (uid, p) := pol.value;
    var current := p.ips;
    if ip in current {
      RemoveEffect(st0, fs, name, uid, ip, readOnly);
      var a, _ := s.Call(RemoveIp(uid, ip));
      if a.Refused? && !a.error.NotFound? {
        return Raised(a.error);
      }
      current := Without(current, ip);
    }
    ghost var st1 := s.st;
    assert Reach(st0, st1, fs, name, ip, readOnly);
    ViewOfFound(st1, fs, name);
    assert LevelViewOf(st1, fs, name).ips == LevelViewOf(st0, fs, name).ips - {ip};
    if current == [] {
      r := DropPolicy(s, fs, name, uid, readOnly, ip);
      ReachTrans(st0, st1, s.st, fs, name, ip, readOnly);
      return r;
    }
    assert current[0] in LevelViewOf(st1, fs, name).ips;
    return Ok(());
  }

  /** Of a lookup begun at t and three requests after it, all but the last are answered and the
      last never reaches the server. */
  ghost predicate DeletionLost(s: Session, t: nat)
  {
    s.AnsweredFrom(t) && s.AnsweredFrom(s.Ends(t)) && DetachedOnly(s, s.Ends(s.Ends(t)))
  }

  ghost predicate DetachedOnly(s: Session, t: nat)
  {
    s.AnsweredFrom(t) && s.Unseen(s.Ends(t))
  }

  /** Detaches and deletes a policy whose last address is gone. */
  method DropPolicy(s: Session, fs: Option<Uid>, name: string, uid: Uid, ghost readOnly: bool, ghost ip: string)
    returns (r: Outcome<(), Error>)
    requires WellFormed(s.st) && FindPolicy(s.st, name) == Some(uid)
    requires LevelViewOf(s.st, fs, name).Present? && LevelViewOf(s.st, fs, name).ips - {ip} == {}
    modifies s
    ensures s.clock > old(s.clock)
    ensures Reach(old(s.st), s.st, fs, name, ip, readOnly)
    ensures r.Ok? ==> LevelViewOf(s.st, fs, name) == Absent
    ensures LevelViewOf(s.st, fs, name).Ips() <= LevelViewOf(old(s.st), fs, name).Ips()
    ensures s.Reliable(old(s.clock)) ==> r.Ok?
    ensures fs.Some? && DetachedOnly(s, old(s.clock)) ==>
      r.Raised? && LevelViewOf(s.st, fs, name) == LevelViewOf(old(s.st), fs, name).(attached := false)
  {
    hide Serve, WellFormed, LevelViewOf, SameExcept, FindPolicy, Repeat, Session.Ends, Session.FirstReplyLost,
      Session.Unseen, Session.AnsweredFrom;
    ReachRefl(s.st, fs, name, ip, readOnly);
    ghost var st0 := s.st;
    if fs.Some? {
      DetachEffect(st0, fs.value, name, uid, ip, readOnly);
      var a, _ := s.Call(Detach(fs.value, uid));
      if a.Refused? && !IsApiError(a.error) {
        return Raised(a.error);
      }
    }
    ghost var st1 := s.st;
    assert Reach(st0, st1, fs, name, ip, readOnly);
    DeleteEffect(st1, fs, name, uid, ip, readOnly);
    var a, _ := s.Call(DeletePolicy(uid));
    ReachRefl(st1, fs, name, ip, readOnly);
    ReachTrans(st0, st1, s.st, fs, name, ip, readOnly);
    if a.Refused? && !a.error.NotFound? {
      return Raised(a.error);
    }
    return Ok(());
  }
}
