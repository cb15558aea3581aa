/** Copying a snapshot through temporary NFS mounts, and taking every temporary resource down again. */
module SnapshotCopy {
  import opened Results
  import opened Rules
  import opened Cluster
  import opened Hosts
  import opened Nfs
  import opened NfsAccess
  import opened NfsRemoval
  import Text
  import Net

  /** tmp_cg_name */
  function TempName(shareId: string): string
  {
    "manila-snap-" + Text.Take(shareId, 8)
  }

  /** What the copy has made so far: permissions of the temporary group, and the group itself
      once its creation was answered. Everything else is as at the start. */
  ghost predicate Temporary(st0: State, st: State, tmp: string, group: Option<Uid>)
  {
    && WellFormed(st)
    && st.filesystems == st0.filesystems && st.policies == st0.policies && st.attached == st0.attached && st.users == st0.users
    && (forall u | u in st0.perms && st0.perms[u].group != tmp :: u in st.perms && st.perms[u] == st0.perms[u])
    && (forall u | u in st.perms && st.perms[u].group != tmp :: u in st0.perms && st.perms[u] == st0.perms[u])
    && match group {
         case None => st.groups == st0.groups
         case Some(u) => u !in st0.groups && u in st.groups && st.groups[u].name == tmp && st.groups - {u} == st0.groups
       }
  }

  ghost predicate FreeName(st: State, name: string)
  {
    forall u | u in st.groups :: st.groups[u].name != name
  }

  // ---- the requests of the try block ----

  /** Permissions of the temporary group come and go within what is temporary. */
  lemma WithinTemporary(st0: State, st: State, st': State, tmp: string, group: Option<Uid>, fs: string)
    requires Temporary(st0, st, tmp, group) && Within(st, st', fs, Only(tmp)) && st'.groups == st.groups
    ensures Temporary(st0, st', tmp, group)
  {
    hide WellFormed;
  }

  lemma CreateGroupTemporary(st: State, tmp: string)
    requires WellFormed(st)
    ensures var (st', a) := Serve(st, CreateGroup(tmp));
      && (st' == st ==> a == Refused(Conflict))
      && WellFormed(st') && st'.perms == st.perms
      && (st' != st ==>
            && a == Created(st.next) && Temporary(st, st', tmp, Some(st.next))
            && st.next in st'.groups && st'.groups[st.next].rules == map[])
      && Serve(st', CreateGroup(tmp)).1 == Refused(Conflict)
    ensures Temporary(st, st, tmp, None)
    ensures Serve(st, CreateGroup(tmp)).0 != st <==> FreeName(st, tmp)
  {
    ServeWellFormed(st, CreateGroup(tmp));
    NewGroupIsNew(st);
    CreateGroupAnswers(st, tmp);
    hide WellFormed, Serve, FreeName;
    var st' := WithGroup(st, tmp);
    assert st'.groups - {st.next} == st.groups;
  }

  lemma NewGroupIsNew(st: State)
    requires WellFormed(st)
    ensures st.next !in st.groups
  {
  }

  function WithGroup(st: State, name: string): State
  {
    st.(groups := st.groups[st.next := Group(name, map[])], next := st.next + 1)
  }

  lemma CreateGroupAnswers(st: State, tmp: string)
    ensures Serve(st, CreateGroup(tmp)) == if FreeName(st, tmp) then (WithGroup(st, tmp), Created(st.next)) else (st, Refused(Conflict))
    ensures Serve(WithGroup(st, tmp), CreateGroup(tmp)).1 == Refused(Conflict)
  {
    assert WithGroup(st, tmp).groups[st.next].name == tmp;
  }

  lemma AddRuleTemporary(st0: State, st: State, tmp: string, u: Uid, address: string)
    requires Temporary(st0, st, tmp, Some(u))
    ensures Temporary(st0, Serve(st, AddRule(u, address)).0, tmp, Some(u))
  {
    AddRuleServed(st, "", u, address);
    AddRuleKeeps(st, u, address);
    hide Serve, WellFormed, Within;
    GroupDropped(st0, st, Serve(st, AddRule(u, address)).0, tmp, u);
  }

  lemma AddRuleKeeps(st: State, u: Uid, address: string)
    requires u in st.groups
    ensures var st' := Serve(st, AddRule(u, address)).0;
      && st'.perms == st.perms && u in st'.groups && st'.groups[u].name == st.groups[u].name
      && st'.groups - {u} == st.groups - {u}
  {
    hide Net.Echo;
  }

  /** The group's rules let the address in. */
  ghost predicate Holds(st: State, u: Uid, address: string)
  {
    u in st.groups && exists rule :: rule in st.groups[u].rules && st.groups[u].rules[rule] == Net.Echo(address)
  }

  ghost predicate Permits(st: State, tmp: string, fs: string, kind: string)
  {
    exists u :: u in st.perms && st.perms[u] == Permission(fs, tmp, kind)
  }

  /** A group without rules takes the address; asked again the server refuses. */
  lemma AddRuleAnswers(st: State, u: Uid, address: string)
    requires u in st.groups && st.groups[u].rules == map[]
    ensures Serve(st, AddRule(u, address)).1 == Created(st.next)
    ensures Serve(Serve(st, AddRule(u, address)).0, AddRule(u, address)).1 == Refused(AlreadyExists)
  {
    hide Net.Echo;
    assert Serve(st, AddRule(u, address)).0.groups[u].rules[st.next] == Net.Echo(address);
  }

  lemma AddRuleHolds(st: State, u: Uid, address: string)
    requires u in st.groups
    ensures Holds(Serve(st, AddRule(u, address)).0, u, address)
  {
    hide Net.Echo;
    var st' := Serve(st, AddRule(u, address)).0;
    if Net.Echo(address) in st.groups[u].rules.Values {
      var rule :| rule in st.groups[u].rules && st.groups[u].rules[rule] == Net.Echo(address);
      assert st' == st;
    } else {
      assert st'.groups[u].rules[st.next] == Net.Echo(address);
    }
  }

  // ---- how the try block's requests go, as the channel alone decides ----

  /** When its requests end, and the error that ends them, if any. */
  datatype Trial = Trial(end: nat, error: Option<Error>)

  /** The error of a request begun at t: that of the attempt it ends with if it is not answered,
      and `doubled` if it is answered but had been carried out before, behind a lost reply. */
  ghost function RequestError(s: Session, t: nat, doubled: Option<Error>): Option<Error>
  {
    if !s.AnsweredFrom(t) then Some(s.channel(s.Ends(t) - 1).error)
    else if s.FirstReplyLost(t) then doubled
    else None
  }

  /** The group, on a name that is free or not; its rule; and the two permissions. */
  ghost function TryRequests(s: Session, t: nat, free: bool): Trial
  {
    var e := RequestError(s, t, Some(Conflict));
    if e.Some? then Trial(s.Ends(t), e) else if !free then Trial(s.Ends(t), Some(Conflict)) else TryRest(s, s.Ends(t))
  }

  ghost function TryRest(s: Session, t: nat): Trial
  {
    var t2 := s.Ends(t);
    var t3 := s.Ends(t2);
    var rule, read, write := RequestError(s, t, Some(AlreadyExists)), RequestError(s, t2, None), RequestError(s, t3, None);
    if rule.Some? then Trial(t2, rule) else if read.Some? then Trial(t3, read) else Trial(s.Ends(t3), write)
  }

  /** The four requests succeed exactly if the name is free and all are answered, the first two
      of them on first being carried out. */
  lemma TrialSucceeds(s: Session, t: nat, free: bool)
    ensures var t1 := s.Ends(t);
      var t2 := s.Ends(t1);
      var t3 := s.Ends(t2);
      && (TryRequests(s, t, free).error.None? <==>
            && free && s.AnsweredFrom(t) && s.AnsweredFrom(t1) && s.AnsweredFrom(t2) && s.AnsweredFrom(t3)
            && !s.FirstReplyLost(t) && !s.FirstReplyLost(t1))
      && (TryRequests(s, t, free).error.None? ==> TryRequests(s, t, free).end == s.Ends(t3))
  {
    hide Session.Ends, Session.AnsweredFrom, Session.FirstReplyLost;
  }

  /** On a free name and with no attempt lost they do. */
  lemma TrialReliable(s: Session, t: nat)
    requires s.Reliable(t)
    ensures TryRequests(s, t, true) == Trial(t + 4, None) && !s.FirstReplyLost(t)
  {
    hide Session.Seen, Session.FirstSeen, TryRequests, TryRest, RequestError;
    FirstReplyKept(s, t);
    FirstReplyKept(s, t + 1);
    s.ReliableAt(t, t);
    s.ReliableAt(t, t + 1);
    s.ReliableAt(t, t + 2);
    s.ReliableAt(t, t + 3);
    TrialSucceeds(s, t, true);
    hide Session.Ends, Session.AnsweredFrom;
    assert s.Ends(t) == t + 1 && s.Ends(t + 1) == t + 2 && s.Ends(t + 2) == t + 3 && s.Ends(t + 3) == t + 4;
    assert TryRequests(s, t, true).error.None? && TryRequests(s, t, true).end == t + 4;
  }

  lemma FirstReplyKept(s: Session, t: nat)
    requires s.channel(t).Deliver?
    ensures !s.FirstReplyLost(t)
  {
    s.FirstReplyLostExactly(t);
  }

  function Raise(e: Option<Error>): Outcome<(), Error>
  {
    if e.Some? then Raised(e.value) else Ok(())
  }

  /** One of the two permissions, one per filesystem. */
  method CreateTempPermission(s: Session, tmp: string, fs: string, kind: string, ghost st0: State, ghost group: Option<Uid>)
    returns (r: Outcome<(), Error>)
    requires Temporary(st0, s.st, tmp, group)
    modifies s
    ensures s.clock == s.Ends(old(s.clock)) && r == Raise(RequestError(s, old(s.clock), None))
    ensures Temporary(st0, s.st, tmp, group) && s.st.groups == old(s.st).groups
    ensures r.Ok? ==> Permits(s.st, tmp, fs, kind)
    ensures forall other, k :: Permits(old(s.st), tmp, other, k) ==> Permits(s.st, tmp, other, k)
    ensures forall u | u in s.st.perms && u !in old(s.st).perms :: s.st.perms[u] == Permission(fs, tmp, kind)
    ensures forall u | u in old(s.st).perms :: u in s.st.perms && s.st.perms[u] == old(s.st).perms[u]
  {
    hide Serve, Temporary, Repeat, WellFormed, Within, Session.Ends, Session.FirstReplyLost, Session.Unseen,
      Session.AnsweredFrom;
    TemporaryWellFormed(st0, s.st, tmp, group);
    var a, served := s.Call(CreatePerm(tmp, fs, kind));
    RepeatCreatePerm(old(s.st), fs, tmp, kind, served);
    WithinTemporary(st0, old(s.st), s.st, tmp, group, fs);
    PermitsGrow(old(s.st), s.st, tmp);
    if a.Refused? {
      if !Unanswered(a) {
        PermAlwaysCreated(Repeat(old(s.st), CreatePerm(tmp, fs, kind), served - 1), fs, tmp, kind);
      }
      return Raised(a.error);
    }
    return Ok(());
  }

  /** Both: reading the source, and writing the target. */
  method CreateTempPermissions(s: Session, tmp: string, srcFs: string, newFs: string, ghost st0: State, ghost group: Option<Uid>)
    returns (r: Outcome<(), Error>)
    requires Temporary(st0, s.st, tmp, group)
    modifies s
    ensures var t := s.Ends(old(s.clock));
      var read, write := RequestError(s, old(s.clock), None), RequestError(s, t, None);
      if read.Some? then s.clock == t && r == Raise(read) else s.clock == s.Ends(t) && r == Raise(write)
    ensures Temporary(st0, s.st, tmp, group) && s.st.groups == old(s.st).groups
    ensures r.Ok? ==> Permits(s.st, tmp, srcFs, "RO") && Permits(s.st, tmp, newFs, "RW")
    ensures forall u | u in s.st.perms && u !in old(s.st).perms ::
      s.st.perms[u] == Permission(srcFs, tmp, "RO") || s.st.perms[u] == Permission(newFs, tmp, "RW")
  {
    hide Temporary, Permits, RequestError, Session.Ends;
    r := CreateTempPermission(s, tmp, srcFs, "RO", st0, group);
    if r.Ok? {
      r := CreateTempPermission(s, tmp, newFs, "RW", st0, group);
    }
  }

  lemma PermAlwaysCreated(st: State, fs: string, tmp: string, kind: string)
    ensures Serve(st, CreatePerm(tmp, fs, kind)).1.Created?
  {
  }

  lemma PermitsGrow(st: State, st': State, tmp: string)
    requires forall u | u in st.perms :: u in st'.perms && st'.perms[u] == st.perms[u]
    ensures forall fs, kind :: Permits(st, tmp, fs, kind) ==> Permits(st', tmp, fs, kind)
  {
    forall fs, kind | Permits(st, tmp, fs, kind)
      ensures Permits(st', tmp, fs, kind)
    {
      var u :| u in st.perms && st.perms[u] == Permission(fs, tmp, kind);
      assert st'.perms[u] == Permission(fs, tmp, kind);
    }
  }

  /** The group itself, without any rule yet. It is orphaned exactly when the server made it and
      the first reply was lost. */
  method CreateTempGroup(s: Session, tmp: string) returns (r: Outcome<Uid, Error>)
    requires WellFormed(s.st)
    modifies s
    ensures s.clock == s.Ends(old(s.clock))
    ensures r.Ok? ==>
      && Temporary(old(s.st), s.st, tmp, Some(r.value))
      && r.value in s.st.groups && s.st.groups[r.value].rules == map[]
    ensures s.st.perms == old(s.st).perms
    ensures r.Raised? ==> s.st == old(s.st) || s.st == Serve(old(s.st), CreateGroup(tmp)).0
    ensures r.Raised? && s.st != old(s.st) <==> FreeName(old(s.st), tmp) && s.FirstReplyLost(old(s.clock))
    // It fails for want of an answer, and for a name that is taken or seems to be for that reason.
    ensures r.Raised? <==> RequestError(s, old(s.clock), Some(Conflict)).Some? || !FreeName(old(s.st), tmp)
    ensures r.Raised? ==> r.error == if RequestError(s, old(s.clock), Some(Conflict)).Some? then RequestError(s, old(s.clock), Some(Conflict)).value else Conflict
  {
    hide Serve, Temporary, Repeat, WellFormed, FreeName, Session.Ends, Session.FirstReplyLost, Session.Unseen,
      Session.AnsweredFrom;
    ghost var st0 := s.st;
    CreateGroupTemporary(st0, tmp);
    var a, served := s.Call(CreateGroup(tmp));
    Settle(st0, CreateGroup(tmp), served);
    RepeatZero(st0, CreateGroup(tmp));
    return match a case Created(uid) => Ok(uid) case Done => Raised(Rejected) case Refused(e) => Raised(e);
  }

  lemma RepeatZero(st: State, op: Op)
    ensures Repeat(st, op, 0) == st
  {
  }

  /** Where the snapshot is: its filesystem, its access point there, and an NFS server. */
  datatype Source = Source(fs: string, accessPoint: string, server: string)

  /** Its one rule, which lets the host in. */
  method AddTempRule(s: Session, tmp: string, uid: Uid, localIp: string, ghost st0: State)
    returns (r: Outcome<Option<Uid>, Error>)
    requires Temporary(st0, s.st, tmp, Some(uid)) && uid in s.st.groups && s.st.groups[uid].rules == map[]
    modifies s
    ensures s.clock == s.Ends(old(s.clock))
    ensures var error := RequestError(s, old(s.clock), Some(AlreadyExists));
      (r.Ok? <==> error.None?) && (r.Raised? ==> error == Some(r.error))
    ensures Temporary(st0, s.st, tmp, Some(uid)) && s.st.perms == old(s.st).perms
    ensures r.Ok? ==> Holds(s.st, uid, localIp)
  {
    hide Serve, Temporary, Repeat, WellFormed, Session.Ends, Session.FirstReplyLost, Session.Unseen,
      Session.AnsweredFrom, Holds;
    TemporaryWellFormed(st0, s.st, tmp, Some(uid));
    AddRuleTemporary(st0, s.st, tmp, uid, localIp);
    AddRuleKeeps(s.st, uid, localIp);
    AddRuleAnswers(s.st, uid, localIp);
    AddRuleHolds(s.st, uid, localIp);
    var a, served := s.Call(AddRule(uid, localIp));
    Settle(old(s.st), AddRule(uid, localIp), served);
    if a.Refused? {
      return Raised(a.error);
    }
    return Ok(if a.Created? then Some(a.uid) else None);
  }

  /** The try block's requests: a group that lets the host in, with read access to the source
      and write access to the target. It reports how far it got. */
  method Export(s: Session, tmp: string, srcFs: string, newFs: string, localIp: string)
    returns (r: Outcome<(), Error>, group: Option<Uid>, rule: Option<Uid>)
    requires WellFormed(s.st)
    modifies s
    ensures var trial := TryRequests(s, old(s.clock), FreeName(old(s.st), tmp)); s.clock == trial.end && r == Raise(trial.error)
    ensures group.Some? ==> Temporary(old(s.st), s.st, tmp, group)
    ensures group.None? ==> r.Raised? && (s.st == old(s.st) || s.st == Serve(old(s.st), CreateGroup(tmp)).0)
    // The group is orphaned exactly when the server made it and the first reply was lost.
    ensures group.None? && s.st != old(s.st) <==> FreeName(old(s.st), tmp) && s.FirstReplyLost(old(s.clock))
    ensures r.Ok? ==> group.Some? && Admitted(s.st, tmp, group.value, srcFs, newFs, localIp)
    // In full: the host is let in, to read the source and to write the target, and nothing else.
    ensures r.Ok? ==>
      && group.value in s.st.groups && s.st.groups[group.value].name == tmp
      && (exists u :: u in s.st.groups[group.value].rules && s.st.groups[group.value].rules[u] == Net.Echo(localIp))
      && (exists u :: u in s.st.perms && s.st.perms[u] == Permission(srcFs, tmp, "RO"))
      && (exists u :: u in s.st.perms && s.st.perms[u] == Permission(newFs, tmp, "RW"))
    ensures forall u | u in s.st.perms && u !in old(s.st).perms ::
      s.st.perms[u] == Permission(srcFs, tmp, "RO") || s.st.perms[u] == Permission(newFs, tmp, "RW")
  {
    hide Serve, Temporary, Repeat, WellFormed, FreeName, Session.Ends, Session.FirstReplyLost, Session.Unseen,
      Session.AnsweredFrom, Holds, Permits;
    ghost var st0 := s.st;
    group, rule := None, None;
    var made := CreateTempGroup(s, tmp);
    if made.Raised? {
      r := Raised(made.error);
      return;
    }
    var uid := made.value;
    group := Some(uid);
    var ruled := AddTempRule(s, tmp, uid, localIp, st0);
    if ruled.Raised? {
      r := Raised(ruled.error);
      return;
    }
    rule := ruled.value;
    ghost var st1 := s.st;
    r := CreateTempPermissions(s, tmp, srcFs, newFs, st0, group);
    HoldsKept(st1, s.st, uid, localIp);
    if r.Ok? {
      AdmittedInFull(st0, s.st, tmp, uid, srcFs, newFs, localIp);
    }
  }

  lemma AdmittedInFull(st0: State, st: State, tmp: string, u: Uid, srcFs: string, newFs: string, localIp: string)
    requires Temporary(st0, st, tmp, Some(u)) && Admitted(st, tmp, u, srcFs, newFs, localIp)
    ensures u in st.groups && st.groups[u].name == tmp
    ensures exists rule :: rule in st.groups[u].rules && st.groups[u].rules[rule] == Net.Echo(localIp)
    ensures exists p :: p in st.perms && st.perms[p] == Permission(srcFs, tmp, "RO")
    ensures exists p :: p in st.perms && st.perms[p] == Permission(newFs, tmp, "RW")
  {
  }

  ghost predicate Admitted(st: State, tmp: string, u: Uid, srcFs: string, newFs: string, localIp: string)
  {
    Holds(st, u, localIp) && Permits(st, tmp, srcFs, "RO") && Permits(st, tmp, newFs, "RW")
  }

  /** The try block's commands: both mounts and the copy, once the host may read the source and
      write the target. */
  method MountAndCopy(h: Host, src: Source, newFs: string, srcMnt: string, dstMnt: string,
                      ghost st: State, ghost tmp: string, ghost group: Uid, ghost localIp: string)
    returns (r: Outcome<(), Error>, srcMounted: bool, dstMounted: bool)
    requires Admitted(st, tmp, group, src.fs, newFs, localIp)
    requires srcMnt !in h.mounts && dstMnt !in h.mounts && srcMnt != dstMnt
    modifies h
    ensures h.dirs == old(h.dirs)
    // Success is one copy, from the snapshot below the mounted source into the mounted target.
    ensures r.Raised? ==> h.copies == old(h.copies)
    ensures r.Ok? ==> h.copies != [] && var copy := h.copies[|h.copies| - 1];
      && h.copies == old(h.copies) + [copy]
      && copy.source == srcMnt + "/.snapshots/" + src.accessPoint && copy.target == dstMnt
      && srcMnt in copy.mounts && copy.mounts[srcMnt] == src.server + ":/" + src.fs
      && dstMnt in copy.mounts && copy.mounts[dstMnt] == src.server + ":/" + newFs
    ensures h.mounts - {srcMnt, dstMnt} == old(h.mounts) && (srcMounted <==> srcMnt in h.mounts) && (dstMounted <==> dstMnt in h.mounts)
    ensures srcMounted == h.works(old(h.clock)) && dstMounted == (srcMounted && h.works(old(h.clock) + 1))
    ensures r == if dstMounted && h.works(old(h.clock) + 2) then Ok(()) else Raised(CommandFailed)
    ensures h.clock == MountsEnd(h, old(h.clock))
  {
    hide Admitted;
    assert h.mounts - {srcMnt, dstMnt} == h.mounts;
    srcMounted, dstMounted := false, false;
    r := Raised(CommandFailed);
    srcMounted := h.Mount(src.server + ":/" + src.fs, srcMnt);
    if !srcMounted {
      return;
    }
    dstMounted := h.Mount(src.server + ":/" + newFs, dstMnt);
    if !dstMounted {
      return;
    }
    var copied := h.Rsync(srcMnt + "/.snapshots/" + src.accessPoint, dstMnt);
    r := if copied then Ok(()) else Raised(CommandFailed);
  }

  /** When the mounts and the copy, begun at c, are over. */
  function MountsEnd(h: Host, c: nat): nat
  {
    if !h.works(c) then c + 1 else if !h.works(c + 1) then c + 2 else c + 3
  }

  lemma HoldsKept(st: State, st': State, u: Uid, address: string)
    requires st'.groups == st.groups
    ensures Holds(st, u, address) ==> Holds(st', u, address)
  {
  }

  // ---- the finally block ----

  lemma DeletePermTemporary(st0: State, st: State, tmp: string, group: Option<Uid>, u: Uid)
    requires Temporary(st0, st, tmp, group) && u in st.perms && st.perms[u].group == tmp
    ensures Temporary(st0, Serve(st, DeletePerm(u)).0, tmp, group)
    ensures Serve(st, DeletePerm(u)).0.perms == st.perms - {u}
  {
    ServeWellFormed(st, DeletePerm(u));
  }

  /** Every permission left of the temporary group is still to come in the listing. */
  ghost predicate Pending(st: State, list: seq<(Uid, Permission)>, i: nat, tmp: string)
  {
    forall u | u in st.perms && st.perms[u].group == tmp :: exists j | i <= j < |list| :: list[j].0 == u
  }

  lemma AllPending(st: State, list: seq<(Uid, Permission)>, tmp: string)
    requires WellFormed(st) && list == Listing(st.perms, st.next)
    ensures Pending(st, list, 0, tmp)
  {
    forall u | u in st.perms && st.perms[u].group == tmp
      ensures exists j | 0 <= j < |list| :: list[j].0 == u
    {
      assert (u, st.perms[u]) in list;
      var j :| 0 <= j < |list| && list[j] == (u, st.perms[u]);
      assert list[j].0 == u;
    }
  }

  lemma PendingNext(st: State, st': State, list: seq<(Uid, Permission)>, i: nat, tmp: string)
    requires Pending(st, list, i, tmp) && i < |list|
    requires st'.perms == st.perms - {list[i].0} || (st'.perms == st.perms && list[i].0 in st.perms && st.perms[list[i].0].group != tmp)
    ensures Pending(st', list, i + 1, tmp)
  {
    forall u | u in st'.perms && st'.perms[u].group == tmp
      ensures exists j | i + 1 <= j < |list| :: list[j].0 == u
    {
      var j :| i <= j < |list| && list[j].0 == u;
      assert j != i;
    }
  }

  /** Deletes the temporary group's permissions; every failure is swallowed. */
  method DropPermissions(s: Session, tmp: string, ghost st0: State, ghost group: Option<Uid>)
    requires Temporary(st0, s.st, tmp, group)
    modifies s
    ensures s.clock > old(s.clock)
    ensures Temporary(st0, s.st, tmp, group) && s.st.groups == old(s.st).groups
    ensures s.Chain(old(s.clock), s.clock)
    ensures s.AllAnswered(old(s.clock), s.clock) ==> forall u | u in s.st.perms :: s.st.perms[u].group != tmp
  {
    hide Serve, Temporary, Repeat, AllListed, Pending, Listing, Session.Ends, Session.FirstReplyLost, Session.Unseen,
      Session.AnsweredFrom, Session.Chain, Session.AllAnswered;
    s.ChainOne(s.clock);
    var e := s.Get();
    if e.Some? {
      return;
    }
    var list := Listing(s.st.perms, s.st.next);
    TemporaryWellFormed(st0, s.st, tmp, group);
    PermsListed(s.st, list);
    AllPending(s.st, list, tmp);
    for i := 0 to |list|
      invariant s.clock > old(s.clock) && s.Chain(old(s.clock), s.clock)
      invariant Temporary(st0, s.st, tmp, group) && s.st.groups == old(s.st).groups
      invariant AllListed(s.st, list, i)
      invariant s.AllAnswered(old(s.clock), s.clock) ==> Pending(s.st, list, i, tmp)
    {
      ghost var st1 := s.st;
      ListedHere(st1, list, i);
      if list[i].1.group == tmp {
        DeletePermTemporary(st0, st1, tmp, group, list[i].0);
        DeletePermGroups(st1, list[i].0);
        s.ChainStep(old(s.clock), s.clock);
        var a, _ := s.Call(DeletePerm(list[i].0));
      }
      ListedNext(st1, s.st, list, i);
      if s.AllAnswered(old(s.clock), s.clock) {
        PendingNext(st1, s.st, list, i, tmp);
      }
    }
    NonePending(s.st, list, tmp);
  }

  lemma TemporaryWellFormed(st0: State, st: State, tmp: string, group: Option<Uid>)
    requires Temporary(st0, st, tmp, group)
    ensures WellFormed(st)
    ensures group.Some? ==> group.value in st.groups
  {
  }

  lemma NonePending(st: State, list: seq<(Uid, Permission)>, tmp: string)
    ensures Pending(st, list, |list|, tmp) ==> forall u | u in st.perms :: st.perms[u].group != tmp
  {
  }

  lemma DeletePermGroups(st: State, u: Uid)
    ensures Serve(st, DeletePerm(u)).0.groups == st.groups
  {
  }

  /** Deletes the temporary group, its rules first; every failure is swallowed. */
  method DropGroup(s: Session, uid: Uid, rule: Option<Uid>, ghost tmp: string, ghost st0: State)
    requires Temporary(st0, s.st, tmp, Some(uid))
    modifies s
    ensures s.clock > old(s.clock)
    ensures Temporary(st0, s.st, tmp, Some(uid)) || Temporary(st0, s.st, tmp, None)
    ensures s.st.perms == old(s.st).perms
    ensures s.Chain(old(s.clock), s.clock)
    ensures s.AllAnswered(old(s.clock), s.clock) ==> Temporary(st0, s.st, tmp, None)
  {
    hide Serve, Temporary, Repeat, Within, Session.Ends, Session.FirstReplyLost, Session.Unseen,
      Session.AnsweredFrom, Session.Chain, Session.AllAnswered;
    s.ChainOne(s.clock);
    if rule.Some? {
      DeleteRuleTemporary(st0, s.st, tmp, uid, rule.value);
      var a, _ := s.Call(DeleteRule(uid, rule.value));
    }
    ghost var st1 := s.st;
    TemporaryWellFormed(st0, st1, tmp, Some(uid));
    ghost var t1 := s.clock;
    var deleted := DeleteClientGroup(s, "", uid);
    s.ChainJoin(old(s.clock), t1, s.clock);
    GroupDropped(st0, st1, s.st, tmp, uid);
  }

  lemma DeleteRuleTemporary(st0: State, st: State, tmp: string, u: Uid, rule: Uid)
    requires Temporary(st0, st, tmp, Some(u))
    ensures Temporary(st0, Serve(st, DeleteRule(u, rule)).0, tmp, Some(u))
    ensures Serve(st, DeleteRule(u, rule)).0.perms == st.perms
  {
    DeleteRuleEffect(st, "", u, rule);
    hide Serve, WellFormed, Within;
    GroupDropped(st0, st, Serve(st, DeleteRule(u, rule)).0, tmp, u);
  }

  lemma GroupDropped(st0: State, st: State, st': State, tmp: string, u: Uid)
    requires Temporary(st0, st, tmp, Some(u))
    requires Within(st, st', "", Only(st.groups[u].name))
    requires st'.perms == st.perms && st'.groups - {u} == st.groups - {u}
    requires u in st'.groups ==> st'.groups[u].name == st.groups[u].name
    ensures Temporary(st0, st', tmp, if u in st'.groups then Some(u) else None)
  {
    if u !in st'.groups {
      assert st'.groups == st'.groups - {u};
    }
  }

  /** Unmounts what was mounted and removes both directories; every failure is swallowed. */
  method HostCleanup(h: Host, srcMnt: string, dstMnt: string, srcMounted: bool, dstMounted: bool)
    requires srcMounted || srcMnt !in h.mounts
    requires dstMounted || dstMnt !in h.mounts
    modifies h
    ensures h.copies == old(h.copies)
    ensures h.clock == old(h.clock) + (if dstMounted then 1 else 0) + (if srcMounted then 1 else 0) + 2
    ensures h.WorksDuring(old(h.clock), h.clock) ==>
      h.mounts == old(h.mounts) - {srcMnt, dstMnt} && h.dirs == old(h.dirs) - {srcMnt, dstMnt}
  {
    if dstMounted {
      var _ := h.Umount(dstMnt);
    }
    if srcMounted {
      var _ := h.Umount(srcMnt);
    }
    h.Rmdir(srcMnt);
    h.Rmdir(dstMnt);
  }

  /** What the try block comes to, begun at t on the channel and at c on the host: its requests'
      error, or that of a mount or the copy. */
  ghost function TryResult(s: Session, t: nat, free: bool, h: Host, c: nat): Outcome<(), Error>
  {
    if TryRequests(s, t, free).error.Some? then Raised(TryRequests(s, t, free).error.value)
    else if h.works(c) && h.works(c + 1) && h.works(c + 2) then Ok(())
    else Raised(CommandFailed)
  }

  /** When its finally block starts: on the channel, at the end of its requests; and on the host. */
  ghost function HostCleanupStart(s: Session, t: nat, free: bool, h: Host, c: nat): nat
  {
    if TryRequests(s, t, free).error.Some? then c else MountsEnd(h, c)
  }

  /** The finally block's requests: the permissions, and the group if its creation was answered. */
  method ClusterCleanup(s: Session, tmp: string, group: Option<Uid>, rule: Option<Uid>, ghost st0: State)
    requires WellFormed(st0)
    requires group.Some? ==> Temporary(st0, s.st, tmp, group)
    requires group.None? ==> s.st == st0 || s.st == Serve(st0, CreateGroup(tmp)).0
    modifies s
    ensures OthersKept(st0, s.st, tmp)
    ensures s.Chain(old(s.clock), s.clock)
    ensures s.AllAnswered(old(s.clock), s.clock) ==>
      && (forall u | u in s.st.perms :: s.st.perms[u].group != tmp)
      && (s.st.groups == st0.groups <==> group.Some? || old(s.st) == st0)
  {
    hide Serve, Temporary, Repeat, OthersKept, Session.Ends, Session.FirstReplyLost, Session.Unseen, Session.Chain,
      Session.AllAnswered;
    ghost var t, st1 := s.clock, s.st;
    ghost var base := if group.Some? then st0 else st1;
    BaseIs(st0, st1, tmp, group);
    DropPermissions(s, tmp, base, group);
    if group.Some? {
      ghost var t1 := s.clock;
      DropGroup(s, group.value, rule, tmp, st0);
      s.ChainJoin(t, t1, s.clock);
    }
    KeptAfter(st0, st1, s.st, tmp, group);
  }

  /** The try statement, once both directories exist. */
  method TryCopy(s: Session, h: Host, tmp: string, src: Source, newFs: string, localIp: string, srcMnt: string, dstMnt: string)
    returns (r: Outcome<(), Error>)
    requires WellFormed(s.st) && srcMnt != dstMnt && srcMnt !in h.mounts && dstMnt !in h.mounts
    modifies s, h
    ensures r == TryResult(s, old(s.clock), FreeName(old(s.st), tmp), h, old(h.clock))
    ensures OthersKept(old(s.st), s.st, tmp)
    ensures var cleanup := TryRequests(s, old(s.clock), FreeName(old(s.st), tmp)).end;
      && s.Chain(cleanup, s.clock)
      && (s.AllAnswered(cleanup, s.clock) ==> forall u | u in s.st.perms :: s.st.perms[u].group != tmp)
      && (s.AllAnswered(cleanup, s.clock) ==>
            (s.st.groups == old(s.st).groups <==> !(FreeName(old(s.st), tmp) && s.FirstReplyLost(old(s.clock)))))
    ensures h.WorksDuring(HostCleanupStart(s, old(s.clock), FreeName(old(s.st), tmp), h, old(h.clock)), h.clock) ==>
      h.mounts == old(h.mounts) && h.dirs == old(h.dirs) - {srcMnt, dstMnt}
    ensures h.clock <= HostCleanupStart(s, old(s.clock), FreeName(old(s.st), tmp), h, old(h.clock)) + 4
    ensures r.Raised? ==> h.copies == old(h.copies)
    ensures r.Ok? ==> h.copies != [] && var copy := h.copies[|h.copies| - 1];
      && h.copies == old(h.copies) + [copy]
      && copy.source == srcMnt + "/.snapshots/" + src.accessPoint && copy.target == dstMnt
      && srcMnt in copy.mounts && copy.mounts[srcMnt] == src.server + ":/" + src.fs
      && dstMnt in copy.mounts && copy.mounts[dstMnt] == src.server + ":/" + newFs
  {
    hide Serve, Temporary, Repeat, OthersKept, Session.Ends, Session.FirstReplyLost, Session.Unseen, Session.Chain,
      Session.AllAnswered, FreeName, Admitted, TryRequests;
    ghost var st0 := s.st;
    var group, rule;
    var srcMounted, dstMounted := false, false;
    assert h.mounts - {srcMnt, dstMnt} == h.mounts;
    r, group, rule := Export(s, tmp, src.fs, newFs, localIp);
    if r.Ok? {
      r, srcMounted, dstMounted := MountAndCopy(h, src, newFs, srcMnt, dstMnt, s.st, tmp, group.value, localIp);
    }
    HostCleanup(h, srcMnt, dstMnt, srcMounted, dstMounted);
    ClusterCleanup(s, tmp, group, rule, st0);
  }

  /** Both temporary directories, made one after the other; the second failing leaves the first. */
  predicate FirstDirLeaks(h: Host, server: Option<string>, from: nat)
  {
    server.Some? && h.works(from) && !h.works(from + 1)
  }

  method MakeDirs(h: Host, srcMnt: string, dstMnt: string) returns (ok: bool)
    requires srcMnt != dstMnt && {srcMnt, dstMnt} !! (h.dirs + h.mounts.Keys)
    modifies h
    ensures ok <==> h.works(old(h.clock)) && h.works(old(h.clock) + 1)
    ensures h.mounts == old(h.mounts) && h.copies == old(h.copies)
    ensures ok ==> h.clock == old(h.clock) + 2 && h.dirs == old(h.dirs) + {srcMnt, dstMnt}
    ensures !ok ==> h.dirs == if h.works(old(h.clock)) then old(h.dirs) + {srcMnt} else old(h.dirs)
  {
    ok := h.Mkdtemp(srcMnt);
    if ok {
      ok := h.Mkdtemp(dstMnt);
    }
  }

  /** _copy_snapshot_nfs; `started` is whether it entered its try block. */
  method CopySnapshotNfs(s: Session, h: Host, share: Share, srcFs: string, accessPoint: string, server: Option<string>,
                         localIp: string, srcMnt: string, dstMnt: string)
    returns (r: Outcome<(), Error>, started: bool)
    requires WellFormed(s.st)
    requires srcMnt != dstMnt && {srcMnt, dstMnt} !! (h.dirs + h.mounts.Keys)
    modifies s, h
    ensures started <==> server.Some? && h.works(old(h.clock)) && h.works(old(h.clock) + 1)
    // The result is the try block's own, whatever the cleanup runs into, and success a finished copy.
    ensures r == if started then TryResult(s, old(s.clock), FreeName(old(s.st), TempName(share.id)), h, old(h.clock) + 2)
                 else Raised(CommandFailed)
    ensures r.Raised? ==> h.copies == old(h.copies)
    // Success is one copy: from the snapshot's directory below the source filesystem, mounted from
    // the server at srcMnt, into the share's filesystem, mounted from it at dstMnt.
    ensures r.Ok? ==> server.Some?
    ensures r.Ok? ==> h.copies != [] && var copy := h.copies[|h.copies| - 1];
      && h.copies == old(h.copies) + [copy]
      && copy.source == srcMnt + "/.snapshots/" + accessPoint && copy.target == dstMnt
      && srcMnt in copy.mounts && copy.mounts[srcMnt] == server.value + ":/" + srcFs
      && dstMnt in copy.mounts && copy.mounts[dstMnt] == server.value + ":/" + share.fsName
    // Whatever fails, permissions of other groups and other groups are as before.
    ensures
      var tmp := "manila-snap-" + if |share.id| <= 8 then share.id else share.id[..8];
      && (forall u | u in old(s.st).groups :: u in s.st.groups && s.st.groups[u] == old(s.st).groups[u])
      && (forall u | u in old(s.st).perms && old(s.st).perms[u].group != tmp :: u in s.st.perms && s.st.perms[u] == old(s.st).perms[u])
      && (forall u | u in s.st.perms && s.st.perms[u].group != tmp :: u in old(s.st).perms)
    // If every request of the cleanup is answered, the temporary group has no permission left, and
    // no group is left unless its creation succeeded behind a lost reply.
    ensures started ==>
      var free := FreeName(old(s.st), TempName(share.id));
      var cleanup := TryRequests(s, old(s.clock), free).end;
      && s.Chain(cleanup, s.clock)
      && (s.AllAnswered(cleanup, s.clock) ==> forall u | u in s.st.perms :: s.st.perms[u].group != TempName(share.id))
      && (s.AllAnswered(cleanup, s.clock) ==>
            (s.st.groups == old(s.st).groups <==> !(free && s.FirstReplyLost(old(s.clock)))))
    // If its at most four commands work, no mount is left and no directory.
    ensures started ==>
      var hostCleanup := HostCleanupStart(s, old(s.clock), FreeName(old(s.st), TempName(share.id)), h, old(h.clock) + 2);
      h.clock <= hostCleanup + 4 && (h.WorksDuring(hostCleanup, h.clock) ==> h.mounts == old(h.mounts) && h.dirs == old(h.dirs))
    // In full: with a server, a free name, and no attempt lost and no command failing, it succeeds
    // and leaves the host's mounts and directories and the cluster's client groups as they were,
    // and no permission of the temporary group.
    ensures
      var tmp := "manila-snap-" + if |share.id| <= 8 then share.id else share.id[..8];
      && server.Some? && (forall u | u in old(s.st).groups :: old(s.st).groups[u].name != tmp)
      && s.Reliable(old(s.clock)) && h.WorksFrom(old(h.clock)) ==>
        && r.Ok? && h.mounts == old(h.mounts) && h.dirs == old(h.dirs) && s.st.groups == old(s.st).groups
        && (forall u | u in s.st.perms :: s.st.perms[u].group != tmp)
    // It succeeds exactly so: the requests of the try block are answered, those for the group and
    // its rule on first being carried out, and the two directories, two mounts and the copy work.
    ensures
      var t := old(s.clock);
      var t1 := s.Ends(t);
      var t2 := s.Ends(t1);
      r.Ok? <==>
        && started && h.works(old(h.clock) + 2) && h.works(old(h.clock) + 3) && h.works(old(h.clock) + 4)
        && FreeName(old(s.st), TempName(share.id))
        && s.AnsweredFrom(t) && s.AnsweredFrom(t1) && s.AnsweredFrom(t2) && s.AnsweredFrom(s.Ends(t2))
        && !s.FirstReplyLost(t) && !s.FirstReplyLost(t1)
    // Without a try block nothing changes, but for the first directory where the second was not made.
    ensures !started ==> s.st == old(s.st) && h.mounts == old(h.mounts)
    ensures !started ==> h.dirs == if FirstDirLeaks(h, server, old(h.clock)) then old(h.dirs) + {srcMnt} else old(h.dirs)
  {
    hide *;
    started := false;
    r := Raised(CommandFailed);
    var tmp := TempName(share.id);
    TempNameIs(share.id);
    OthersKeptRefl(s.st, tmp);
    IsFree(s.st, tmp);
    LeaksIff(h, server, h.clock);
    if server.None? {
      return;
    }
    h.WorksFromExactly(h.clock);
    started := MakeDirs(h, srcMnt, dstMnt);
    if !started {
      return;
    }
    assert h.dirs - {srcMnt, dstMnt} == old(h.dirs);
    r := TryCopy(s, h, tmp, Source(srcFs, accessPoint, server.value), share.fsName, localIp, srcMnt, dstMnt);
    ghost var free := FreeName(old(s.st), tmp);
    CopySucceeds(s, old(s.clock), h, old(h.clock), free);
    if free && s.Reliable(old(s.clock)) && h.WorksFrom(old(h.clock)) {
      AllInOrder(s, old(s.clock), s.clock, h, old(h.clock), h.clock, free);
    }
    OthersKeptInFull(old(s.st), s.st, tmp);
  }

  lemma LeaksIff(h: Host, server: Option<string>, c: nat)
    ensures FirstDirLeaks(h, server, c) <==> server.Some? && h.works(c) && !h.works(c + 1)
  {
  }

  lemma TempNameIs(shareId: string)
    ensures TempName(shareId) == "manila-snap-" + if |shareId| <= 8 then shareId else shareId[..8]
  {
  }

  lemma IsFree(st: State, tmp: string)
    ensures FreeName(st, tmp) <==> forall u | u in st.groups :: st.groups[u].name != tmp
  {
  }

  lemma OthersKeptInFull(st: State, st': State, tmp: string)
    requires OthersKept(st, st', tmp)
    ensures forall u | u in st.groups :: u in st'.groups && st'.groups[u] == st.groups[u]
    ensures forall u | u in st.perms && st.perms[u].group != tmp :: u in st'.perms && st'.perms[u] == st.perms[u]
    ensures forall u | u in st'.perms && st'.perms[u].group != tmp :: u in st.perms && st'.perms[u] == st.perms[u]
  {
  }

  /** The result of the try block, begun at c + 2 on the host, in full. */
  lemma CopySucceeds(s: Session, t: nat, h: Host, c: nat, free: bool)
    requires h.works(c) && h.works(c + 1)
    ensures var t1 := s.Ends(t);
      var t2 := s.Ends(t1);
      TryResult(s, t, free, h, c + 2).Ok? <==>
        && h.works(c + 2) && h.works(c + 3) && h.works(c + 4)
        && free && s.AnsweredFrom(t) && s.AnsweredFrom(t1) && s.AnsweredFrom(t2) && s.AnsweredFrom(s.Ends(t2))
        && !s.FirstReplyLost(t) && !s.FirstReplyLost(t1)
  {
    TrialSucceeds(s, t, free);
    hide TryRequests, Session.Ends, Session.AnsweredFrom, Session.FirstReplyLost;
  }

  /** On a free name, with no attempt lost and no command failing, so does the cleanup. */
  lemma AllInOrder(s: Session, t: nat, until: nat, h: Host, c: nat, hostUntil: nat, free: bool)
    requires free && s.Reliable(t) && h.WorksFrom(c)
    ensures !s.FirstReplyLost(t) && s.AllAnswered(TryRequests(s, t, free).end, until)
    ensures h.WorksDuring(HostCleanupStart(s, t, free, h, c + 2), hostUntil)
    ensures TryResult(s, t, free, h, c + 2).Ok?
  {
    TrialReliable(s, t);
    hide TryRequests, Session.FirstReplyLost;
    assert s.Reliable(t + 4);
    s.FairAnswersAll(t + 4, until);
  }

  lemma OthersKeptRefl(st: State, tmp: string)
    ensures OthersKept(st, st, tmp)
  {
  }

  /** Permissions of other groups and the groups of the start are still there, and only they. */
  ghost predicate OthersKept(st: State, st': State, tmp: string)
  {
    && (forall u | u in st.groups :: u in st'.groups && st'.groups[u] == st.groups[u])
    && (forall u | u in st.perms && st.perms[u].group != tmp :: u in st'.perms && st'.perms[u] == st.perms[u])
    && (forall u | u in st'.perms && st'.perms[u].group != tmp :: u in st.perms && st'.perms[u] == st.perms[u])
  }

  /** The state the cleanup measures from: the start, or the orphaned group on top of it. */
  lemma BaseIs(st0: State, st1: State, tmp: string, group: Option<Uid>)
    requires WellFormed(st0)
    requires group.Some? ==> Temporary(st0, st1, tmp, group)
    requires group.None? ==> st1 == st0 || st1 == Serve(st0, CreateGroup(tmp)).0
    ensures Temporary(if group.Some? then st0 else st1, st1, tmp, group)
  {
    if group.None? {
      CreateGroupTemporary(st0, tmp);
    }
  }

  lemma KeptAfter(st0: State, st1: State, st': State, tmp: string, group: Option<Uid>)
    requires WellFormed(st0)
    requires group.Some? ==> Temporary(st0, st', tmp, group) || Temporary(st0, st', tmp, None)
    requires group.None? ==> Temporary(st1, st', tmp, None) && (st1 == st0 || st1 == Serve(st0, CreateGroup(tmp)).0)
    ensures OthersKept(st0, st', tmp)
    ensures Temporary(st0, st', tmp, None) ==> st'.groups == st0.groups
    ensures group.None? ==> (st'.groups == st0.groups <==> st1 == st0)
  {
    if group.Some? && Temporary(st0, st', tmp, group) {
      forall u | u in st0.groups
        ensures u in st'.groups && st'.groups[u] == st0.groups[u]
      {
        assert u in st'.groups - {group.value};
        assert (st'.groups - {group.value})[u] == st0.groups[u];
      }
    }
    if group.None? && st1 != st0 {
      assert st1.groups[st0.next].name == tmp && st0.next !in st0.groups;
    }
  }
}
