/** WekaFS mounts: one lock per mount point, under any interleaving of threads, and the
    context managers of the snapshot copy. */
module Mounts {
  import opened Results
  import opened Hosts
  import opened Cluster

  type Tid = nat
  type LockId = nat

  datatype Job = Mount | Unmount

  /** Where a thread is: with a WekaMount object or inside mount()/unmount() on it. */
  datatype Phase =
    | Outside
    | Ready(path: string, lock: LockId)
    | Locked(job: Job, path: string, lock: LockId)
    | Issuing(job: Job, path: string, lock: LockId)

  /** _MOUNT_LOCKS, who holds each lock, and how many WekaFS mounts each point carries. */
  datatype State = State(locks: map<string, LockId>, owner: map<LockId, Tid>, table: multiset<string>, phase: map<Tid, Phase>)

  function PhaseOf(s: State, t: Tid): Phase
  {
    if t in s.phase then s.phase[t] else Outside
  }

  datatype Event =
    | Construct(t: Tid, path: string, unused: LockId)
    | Acquire(t: Tid, job: Job)
    | Check(t: Tid)
    | Command(t: Tid, ok: bool)

  /** _get_mount_lock, under the table's own lock: the path's lock, created on first use. */
  function LockFor(locks: map<string, LockId>, path: string, unused: LockId): map<string, LockId>
  {
    if path in locks then locks else locks[path := unused]
  }

  predicate Fresh(s: State, lock: LockId)
  {
    lock !in s.locks.Values && lock !in s.owner
  }

  function Release(s: State, t: Tid, p: Phase): State
    requires p.Locked? || p.Issuing?
  {
    s.(owner := s.owner - {p.lock}, phase := s.phase[t := Ready(p.path, p.lock)])
  }

  /** When a thread may take a step. */
  predicate Enabled(s: State, e: Event)
  {
    match e
    case Construct(t, path, unused) => (PhaseOf(s, t).Outside? || PhaseOf(s, t).Ready?) && (path in s.locks || Fresh(s, unused))
    case Acquire(t, _) => PhaseOf(s, t).Ready? && PhaseOf(s, t).lock !in s.owner
    case Check(t) => PhaseOf(s, t).Locked?
    case Command(t, _) => PhaseOf(s, t).Issuing?
  }

  /** One step: look the lock up, take it, read the mount table, or run the command; the lock
      is released on every way out. */
  function Next(s: State, e: Event): State
    requires Enabled(s, e)
  {
    match e
    case Construct(t, path, unused) =>
      var locks := LockFor(s.locks, path, unused);
      s.(locks := locks, phase := s.phase[t := Ready(path, locks[path])])
    case Acquire(t, job) =>
      var p := PhaseOf(s, t);
      s.(owner := s.owner[p.lock := t], phase := s.phase[t := Locked(job, p.path, p.lock)])
    case Check(t) =>
      var p := PhaseOf(s, t);
      if (p.path in s.table) == p.job.Mount? then Release(s, t, p)
      else s.(phase := s.phase[t := Issuing(p.job, p.path, p.lock)])
    case Command(t, ok) =>
      var p := PhaseOf(s, t);
      var table := if !ok then s.table else if p.job.Mount? then s.table + multiset{p.path} else s.table - multiset{p.path};
      Release(s.(table := table), t, p)
  }

  ghost predicate Inv(s: State)
  {
    && (forall p | p in s.table :: s.table[p] == 1)
    && (forall p, q | p in s.locks && q in s.locks && p != q :: s.locks[p] != s.locks[q])
    && (forall t | t in s.phase && !s.phase[t].Outside? :: s.phase[t].path in s.locks && s.locks[s.phase[t].path] == s.phase[t].lock)
    && (forall t | t in s.phase && (s.phase[t].Locked? || s.phase[t].Issuing?) ::
          s.phase[t].lock in s.owner && s.owner[s.phase[t].lock] == t)
    && (forall t | t in s.phase && s.phase[t].Issuing? :: (s.phase[t].path in s.table) == s.phase[t].job.Unmount?)
  }

  lemma StepKeepsInv(s: State, e: Event)
    requires Inv(s) && Enabled(s, e)
    ensures Inv(Next(s, e))
  {
    hide Inv, Enabled, Next;
    match e
    case Construct(_, _, _) => ConstructKeepsInv(s, e);
    case Acquire(_, _) => AcquireKeepsInv(s, e);
    case Check(_) => CheckKeepsInv(s, e);
    case Command(_, _) => CommandKeepsInv(s, e);
  }

  lemma ConstructKeepsInv(s: State, e: Event)
    requires e.Construct? && Inv(s) && Enabled(s, e)
    ensures Inv(Next(s, e))
  {
  }

  lemma AcquireKeepsInv(s: State, e: Event)
    requires e.Acquire? && Inv(s) && Enabled(s, e)
    ensures Inv(Next(s, e))
  {
  }

  lemma CheckKeepsInv(s: State, e: Event)
    requires e.Check? && Inv(s) && Enabled(s, e)
    ensures Inv(Next(s, e))
  {
  }

  /** Holding the point's lock, the thread is alone between its check and its command. */
  lemma CommandKeepsInv(s: State, e: Event)
    requires e.Command? && Inv(s) && Enabled(s, e)
    ensures Inv(Next(s, e))
  {
    var s' := Next(s, e);
    forall t | t in s'.phase && s'.phase[t].Issuing?
      ensures (s'.phase[t].path in s'.table) == s'.phase[t].job.Unmount?
    {
      if t != e.t {
        assert s.phase[t].lock != PhaseOf(s, e.t).lock;
      }
    }
  }

  /** A process just started, on a host where no point carries two WekaFS mounts. */
  ghost predicate Init(s: State)
  {
    && s.locks == map[] && s.owner == map[] && s.phase == map[]
    && forall p | p in s.table :: s.table[p] == 1
  }

  ghost predicate IsRun(states: seq<State>, events: seq<Event>)
  {
    && |states| == |events| + 1
    && Init(states[0])
    && forall i | 0 <= i < |events| :: Enabled(states[i], events[i]) && states[i + 1] == Next(states[i], events[i])
  }

  lemma {:induction false} RunKeepsInv(states: seq<State>, events: seq<Event>, i: nat)
    requires IsRun(states, events) && i <= |events|
    ensures Inv(states[i])
  {
    if i > 0 {
      hide Inv;
      RunKeepsInv(states, events, i - 1);
      StepKeepsInv(states[i - 1], events[i - 1]);
    }
  }

  /** In every run: no point ever carries two WekaFS mounts; a command is issued only where it
      makes sense, so never an umount of an unmounted point; and two threads are never both
      between taking the lock of a point and releasing it. */
  lemma MountsAreExclusive(states: seq<State>, events: seq<Event>, i: nat)
    requires IsRun(states, events) && i <= |events|
    ensures forall p :: states[i].table[p] <= 1
    ensures i < |events| && events[i].Command? ==>
      var p := PhaseOf(states[i], events[i].t); (p.path in states[i].table) == p.job.Unmount?
    ensures forall t, u | t in states[i].phase && u in states[i].phase && t != u ::
      var p, q := states[i].phase[t], states[i].phase[u];
      (p.Locked? || p.Issuing?) && (q.Locked? || q.Issuing?) ==> p.path != q.path
  {
    RunKeepsInv(states, events, i);
    forall p
      ensures states[i].table[p] <= 1
    {
      if p in states[i].table {
        assert states[i].table[p] == 1;
      }
    }
  }

  /** In every run: mount() returns with its point mounted and unmount() with its point free, at
      once if it was so already and else by a command that works; a command that fails changes
      nothing, no other point ever changes, and the lock is free again after either. */
  lemma OperationsDoTheirJob(states: seq<State>, events: seq<Event>, i: nat)
    requires IsRun(states, events) && i < |events|
    ensures var e := events[i];
      var p, s, s' := PhaseOf(states[i], e.t), states[i], states[i + 1];
      && (e.Construct? || e.Acquire? ==> s'.table == s.table)
      && (e.Check? || e.Command? ==>
            && (p.Locked? || p.Issuing?)
            && (forall q | q != p.path :: s'.table[q] == s.table[q])
            && (PhaseOf(s', e.t).Ready? ==> p.lock !in s'.owner))
      && (e.Check? ==> s'.table == s.table && (PhaseOf(s', e.t).Ready? <==> (p.path in s.table <==> p.job.Mount?)))
      && (e.Command? ==> PhaseOf(s', e.t).Ready? && (if e.ok then p.path in s'.table <==> p.job.Mount? else s'.table == s.table))
  {
    RunKeepsInv(states, events, i);
    assert Enabled(states[i], events[i]) && states[i + 1] == Next(states[i], events[i]);
    StepDoesItsJob(states[i], events[i]);
  }

  lemma StepDoesItsJob(s: State, e: Event)
    requires Inv(s) && Enabled(s, e)
    ensures var p, s' := PhaseOf(s, e.t), Next(s, e);
      && (e.Construct? || e.Acquire? ==> s'.table == s.table)
      && (e.Check? || e.Command? ==>
            && (p.Locked? || p.Issuing?)
            && (forall q | q != p.path :: s'.table[q] == s.table[q])
            && (PhaseOf(s', e.t).Ready? ==> p.lock !in s'.owner))
      && (e.Check? ==> s'.table == s.table && (PhaseOf(s', e.t).Ready? <==> (p.path in s.table <==> p.job.Mount?)))
      && (e.Command? ==> PhaseOf(s', e.t).Ready? && (if e.ok then p.path in s'.table <==> p.job.Mount? else s'.table == s.table))
  {
  }

  /** Each path keeps the lock it first got. */
  lemma {:induction false} LocksAreForever(states: seq<State>, events: seq<Event>, i: nat, j: nat, path: string)
    requires IsRun(states, events) && i <= j <= |events| && path in states[i].locks
    ensures path in states[j].locks && states[j].locks[path] == states[i].locks[path]
  {
    if i < j {
      LocksAreForever(states, events, i, j - 1, path);
      assert states[j] == Next(states[j - 1], events[j - 1]);
    }
  }

  // ---- context managers ----

  /** WekaMount.__enter__: mounts unless something is mounted there already. */
  method Enter(h: Host, fs: string, path: string) returns (ok: bool)
    modifies h
    ensures h.dirs == old(h.dirs) && h.copies == old(h.copies)
    ensures h.mounts == if ok && path !in old(h.mounts) then old(h.mounts)[path := fs] else old(h.mounts)
    ensures path in old(h.mounts) ==> ok && h.clock == old(h.clock)
    ensures path !in old(h.mounts) ==> ok == h.works(old(h.clock)) && h.clock == old(h.clock) + 1
  {
    if path in h.mounts {
      return true;
    }
    ok := h.Mount(fs, path);
  }

  /** WekaMount.__exit__: unmounts whatever is mounted there; a failure is only logged. */
  method Exit(h: Host, path: string) returns (ok: bool)
    modifies h
    ensures h.dirs == old(h.dirs) && h.copies == old(h.copies)
    ensures path !in old(h.mounts) ==> ok && h.clock == old(h.clock)
    ensures path in old(h.mounts) ==> ok == h.works(old(h.clock)) && h.clock == old(h.clock) + 1
    ensures h.mounts == if ok then old(h.mounts) - {path} else old(h.mounts)
  {
    if path !in h.mounts {
      assert h.mounts - {path} == h.mounts;
      return true;
    }
    ok := h.Umount(path);
  }

  // ---- which of the host's commands the nest issues, if it begins at c ----

  /** Whether the manager of a point is entered, and the next command then. */
  function Entered(h: Host, c: nat, mounted: bool): bool
  {
    mounted || h.works(c)
  }

  function AfterEnter(c: nat, mounted: bool): nat
  {
    if mounted then c else c + 1
  }

  /** The umount of an entered point leaves the point as it was before: it works and the point
      was free, or it fails and something was mounted already. */
  predicate PointRestored(h: Host, umountAt: nat, mounted: bool)
  {
    h.works(umountAt) != mounted
  }

  /** The commands of a nest begun at c, with the points' state before it. */
  datatype Nest = Nest(c: nat, srcMounted: bool, dstMounted: bool)
  {
    function SrcEntered(h: Host): bool { Entered(h, c, srcMounted) }

    function DstAt(): nat { AfterEnter(c, srcMounted) }

    function DstEntered(h: Host): bool { SrcEntered(h) && Entered(h, DstAt(), dstMounted) }

    function RsyncAt(): nat { AfterEnter(DstAt(), dstMounted) }

    function DstUmountAt(): nat { RsyncAt() + 1 }

    function SrcUmountAt(h: Host): nat { if DstEntered(h) then RsyncAt() + 2 else RsyncAt() }

    predicate UmountsWork(h: Host)
    {
      (SrcEntered(h) ==> h.works(SrcUmountAt(h))) && (DstEntered(h) ==> h.works(DstUmountAt()))
    }

    /** Every entered point is left as it was. */
    predicate Restores(h: Host)
    {
      && (SrcEntered(h) ==> PointRestored(h, SrcUmountAt(h), srcMounted))
      && (DstEntered(h) ==> PointRestored(h, DstUmountAt(), dstMounted))
    }
  }

  /** The inner manager, around the rsync, begun at c. */
  method CopyInto(h: Host, newFs: string, dir: string, dst: string) returns (r: Outcome<(), Error>)
    modifies h
    ensures h.dirs == old(h.dirs)
    ensures var c, mounted := old(h.clock), dst in old(h.mounts);
      var rsyncAt := AfterEnter(c, mounted);
      && r == (if Entered(h, c, mounted) && h.works(rsyncAt) then Ok(()) else Raised(CommandFailed))
      && h.clock == (if Entered(h, c, mounted) then rsyncAt + 2 else rsyncAt)
      && h.copies == old(h.copies) + (if r.Ok? then [Copied(dir, dst, if mounted then old(h.mounts) else old(h.mounts)[dst := newFs])] else [])
      && (forall p | p != dst :: (p in h.mounts <==> p in old(h.mounts)) && (p in h.mounts ==> h.mounts[p] == old(h.mounts)[p]))
      && (h.mounts == old(h.mounts) <==> !Entered(h, c, mounted) || PointRestored(h, rsyncAt + 1, mounted))
  {
    r := Raised(CommandFailed);
    var ok := Enter(h, newFs, dst);
    if ok {
      ok := h.Rsync(dir, dst);
      r := if ok then Ok(()) else Raised(CommandFailed);
      var _ := Exit(h, dst);
    }
  }

  /** The nest of _copy_snapshot_wekafs around its rsync. */
  method CopyNest(h: Host, srcFs: string, accessPoint: string, newFs: string, src: string, dst: string)
    returns (r: Outcome<(), Error>)
    requires src != dst
    modifies h
    ensures h.dirs == old(h.dirs)
    // Success is one copy, from below whatever the first point has mounted, and the source
    // filesystem unless it was mounted already, into what the second has, likewise.
    ensures r.Raised? ==> h.copies == old(h.copies)
    ensures r.Ok? ==> h.copies != [] && var copy := h.copies[|h.copies| - 1];
      && h.copies == old(h.copies) + [copy]
      && copy.source == src + "/.snapshots/" + accessPoint && copy.target == dst
      && src in copy.mounts && copy.mounts[src] == (if src in old(h.mounts) then old(h.mounts)[src] else srcFs)
      && dst in copy.mounts && copy.mounts[dst] == (if dst in old(h.mounts) then old(h.mounts)[dst] else newFs)
    // With both points free and every command working but perhaps a mount or the copy, it succeeds
    // exactly if that one works, and leaves the table as it was either way.
    ensures forall f | old(h.clock) <= f <= old(h.clock) + 2 && h.WorksBut(old(h.clock), f) && src !in old(h.mounts) && dst !in old(h.mounts) ::
      (r.Ok? <==> h.works(f)) && h.mounts == old(h.mounts)
    ensures var nest := Nest(old(h.clock), src in old(h.mounts), dst in old(h.mounts));
      // It succeeds exactly if both points are entered and the copy works, ...
      && r == (if nest.DstEntered(h) && h.works(nest.RsyncAt()) then Ok(()) else Raised(CommandFailed))
      // ... and, normally or by exception, the table ends as it began exactly if every point
      // entered was free and its umount works, or was mounted already and its umount fails.
      && (h.mounts == old(h.mounts) <==> nest.Restores(h))
  {
    hide Host.WorksBut;
    if src !in h.mounts && dst !in h.mounts {
      NestInOrder(h, Nest(h.clock, src in h.mounts, dst in h.mounts));
    }
    r := Raised(CommandFailed);
    var ok := Enter(h, srcFs, src);
    if ok {
      r := CopyInto(h, newFs, src + "/.snapshots/" + accessPoint, dst);
      var _ := Exit(h, src);
    }
  }

  /** On free points, with one command that may fail, the nest restores, and goes through if it works. */
  lemma NestInOrder(h: Host, nest: Nest)
    requires !nest.srcMounted && !nest.dstMounted
    ensures forall f | nest.c <= f <= nest.c + 2 && h.WorksBut(nest.c, f) ::
      (nest.DstEntered(h) && h.works(nest.RsyncAt()) <==> h.works(f)) && nest.Restores(h)
  {
  }

  /** With umounts that work, the table ends as it began exactly if the first point was free and
      the second was too or was never entered, the first mount having failed. */
  lemma RestoredIfUmountsWork(h: Host, nest: Nest)
    requires nest.UmountsWork(h)
    ensures nest.Restores(h) <==> !nest.srcMounted && (!nest.dstMounted || !h.works(nest.c))
  {
  }
}
