/** Creating a share's filesystem over a lossy channel. */
module Filesystems {
  import opened Results
  import opened Cluster
  import opened Wekafs

  /** _create_filesystem_idempotent: look up, create, and on a conflict look up again. */
  method CreateIdempotent(s: Session, name: string, size: nat, authRequired: bool) returns (r: Outcome<Uid, Error>)
    requires WellFormed(s.st)
    modifies s
    ensures WellFormed(s.st)
    // At most one filesystem appears, on a free name and with space for it, and nothing else
    // changes, whatever is lost.
    ensures s.st == old(s.st) ||
      (&& (forall u | u in old(s.st).filesystems :: old(s.st).filesystems[u].name != name) && size <= old(s.st).free
       && s.st == old(s.st).(filesystems := old(s.st).filesystems[old(s.st).next := Filesystem(name, size, authRequired)],
                             free := old(s.st).free - size, next := old(s.st).next + 1))
    ensures r.Ok? ==> r.value in s.st.filesystems && s.st.filesystems[r.value].name == name
    ensures r.Ok? ==> FindFs(s.st, name) == r.ToOption()
    ensures r.Ok? && FindFs(old(s.st), name).Some? ==> s.st == old(s.st)
    // It succeeds exactly if the filesystem is there or fits and its requests are answered: the
    // lookup; the creation, if it is not there; and the second lookup, if the creation succeeded
    // behind a lost reply. It fails for want of space or of an answer only.
    ensures var there, fits := FindFs(old(s.st), name).Some?, size <= old(s.st).free;
      var t1 := s.Ends(old(s.clock));
      var answered := s.AnsweredFrom(old(s.clock)) &&
        (there || (s.AnsweredFrom(t1) && (fits && s.FirstReplyLost(t1) ==> s.AnsweredFrom(s.Ends(t1)))));
      && (r.Ok? <==> answered && (there || fits))
      && (r.Raised? ==> if answered then r.error.InsufficientCapacity? && s.st == old(s.st) else Unanswered(Refused(r.error)))
    // With no attempt lost that is: exactly if it is there or fits.
    ensures (forall t | t >= old(s.clock) :: s.channel(t).Deliver?) ==>
      (r.Ok? <==> size <= old(s.st).free || exists u :: u in old(s.st).filesystems && old(s.st).filesystems[u].name == name)
  {
    hide Serve, WellFormed, FindFs, Repeat, Session.AnsweredFrom, Session.FirstReplyLost, Session.Unseen,
      Session.Ends;
    ghost var st0 := s.st;
    FsListed(st0, name);
    InOrder(s, s.clock);
    var found :- GetFilesystemByName(s, name);
    if found.Some? {
      return Ok(found.value);
    }
    CreateAnswers(st0, name, size, authRequired);
    var a, served := s.Call(CreateFilesystem(name, size, authRequired));
    Settle(st0, CreateFilesystem(name, size, authRequired), served);
    match a {
      case Created(uid) => return Ok(uid);
      case Done => return Raised(Rejected);
      case Refused(error) =>
        if error.Conflict? {
          found :- GetFilesystemByName(s, name);
          return if found.Some? then Ok(found.value) else Raised(Conflict);
        }
        return Raised(if error.Capacity? then InsufficientCapacity else error);
    }
  }

  lemma FsListed(st: State, name: string)
    requires WellFormed(st)
    ensures FindFs(st, name).Some? <==> exists u :: u in st.filesystems && st.filesystems[u].name == name
    ensures FindFs(st, name).Some? ==> FindFs(st, name).value in st.filesystems && st.filesystems[FindFs(st, name).value].name == name
  {
  }

  lemma InOrder(s: Session, t: nat)
    ensures (forall i | i >= t :: s.channel(i).Deliver?) ==>
      s.AnsweredFrom(t) && s.AnsweredFrom(s.Ends(t)) && !s.FirstReplyLost(s.Ends(t))
  {
    if forall i | i >= t :: s.channel(i).Deliver? {
      assert s.Reliable(t);
      s.ReliableAt(t, t);
      s.ReliableAt(t, t + 1);
      s.FirstReplyLostExactly(t + 1);
    }
  }

  lemma CreateAnswers(st: State, name: string, size: nat, authRequired: bool)
    requires WellFormed(st) && FindFs(st, name).None?
    ensures var op := CreateFilesystem(name, size, authRequired);
            var (st', a) := Serve(st, op);
      && WellFormed(st')
      && (size <= st.free ==> a == Created(st.next) && FindFs(st', name) == Some(st.next) && Serve(st', op).1 == Refused(Conflict))
      && (size > st.free ==> a == Refused(Capacity) && st' == st)
      && (size <= st.free ==>
            st' == st.(filesystems := st.filesystems[st.next := Filesystem(name, size, authRequired)],
                       free := st.free - size, next := st.next + 1))
  {
    var op := CreateFilesystem(name, size, authRequired);
    ServeWellFormed(st, op);
    if size <= st.free {
      FsIs(Serve(st, op).0, name, st.next);
    }
  }

  // ---- any number of callers, retries and lost replies ----

  /** Server states under filesystem creations by anyone, in any order and repetition. */
  ghost predicate IsTrace(states: seq<State>, ops: seq<Op>)
  {
    && |states| == |ops| + 1
    && WellFormed(states[0])
    && forall i | 0 <= i < |ops| :: ops[i].CreateFilesystem? && states[i + 1] == Serve(states[i], ops[i]).0
  }

  lemma {:induction false} FilesystemsOnlyAccrue(states: seq<State>, ops: seq<Op>, i: nat)
    requires IsTrace(states, ops) && i <= |ops|
    ensures WellFormed(states[|ops|]) && WellFormed(states[i])
    ensures forall u | u in states[i].filesystems ::
      u in states[|ops|].filesystems && states[|ops|].filesystems[u] == states[i].filesystems[u]
  {
    hide WellFormed, Serve;
    if i < |ops| {
      var n := |ops| - 1;
      FilesystemsOnlyAccrue(states[..|ops|], ops[..n], i);
      OneCreation(states[n], ops[n]);
    } else if |ops| > 0 {
      FilesystemsOnlyAccrue(states, ops, i - 1);
    }
  }

  lemma OneCreation(st: State, op: Op)
    requires WellFormed(st) && op.CreateFilesystem?
    ensures WellFormed(Serve(st, op).0)
    ensures forall u | u in st.filesystems :: u in Serve(st, op).0.filesystems && Serve(st, op).0.filesystems[u] == st.filesystems[u]
  {
    ServeWellFormed(st, op);
  }

  /** One name never gets a second filesystem: whatever is seen under it at any two moments
      is the same one, unchanged. */
  lemma OneFilesystemPerName(states: seq<State>, ops: seq<Op>, i: nat, j: nat, u: Uid, v: Uid)
    requires IsTrace(states, ops) && i <= |ops| && j <= |ops|
    requires u in states[i].filesystems && v in states[j].filesystems
    requires states[i].filesystems[u].name == states[j].filesystems[v].name
    ensures u == v && states[i].filesystems[u] == states[j].filesystems[v]
  {
    hide WellFormed, Serve;
    FilesystemsOnlyAccrue(states, ops, i);
    FilesystemsOnlyAccrue(states, ops, j);
    UniqueNames(states[|ops|], u, v);
  }

  lemma UniqueNames(st: State, u: Uid, v: Uid)
    requires WellFormed(st) && u in st.filesystems && v in st.filesystems
    requires st.filesystems[u].name == st.filesystems[v].name
    ensures u == v
  {
  }
}
