/** The in-memory status map of background snapshot copies, under any interleaving of
    creates, workers, polls and process restarts. */
module AsyncCopies {
  type ShareId = string

  datatype Status = Creating | Available | Error

  /** A worker copies, then records how the copy ended. */
  datatype Worker = Copying | Ended(ok: bool)

  datatype State = State(entries: map<ShareId, Status>, workers: map<ShareId, Worker>, created: set<ShareId>, copied: set<ShareId>)

  datatype Event =
    | Create(share: ShareId)
    | CopyEnds(share: ShareId, ok: bool)
    | Record(share: ShareId)
    | Poll(share: ShareId, seen: Status)
    | Restart

  /** What get_share_status reports: a missing entry means the process restarted mid-copy. */
  function Reported(s: State, share: ShareId): Status
  {
    if share in s.entries then s.entries[share] else Error
  }

  /** One create per share id; a worker moves only where it is; a poll sees what is reported. */
  predicate Enabled(s: State, e: Event)
  {
    match e
    case Create(share) => share !in s.created
    case CopyEnds(share, _) => share in s.workers && s.workers[share].Copying?
    case Record(share) => share in s.workers && s.workers[share].Ended?
    case Poll(share, seen) => seen == Reported(s, share)
    case Restart => true
  }

  function Next(s: State, e: Event): State
    requires Enabled(s, e)
  {
    match e
    case Create(share) =>
      s.(entries := s.entries[share := Creating], workers := s.workers[share := Copying], created := s.created + {share})
    case CopyEnds(share, ok) =>
      s.(workers := s.workers[share := Ended(ok)], copied := if ok then s.copied + {share} else s.copied)
    case Record(share) =>
      s.(entries := s.entries[share := if s.workers[share].ok then Available else Error], workers := s.workers - {share})
    case Poll(_, _) => s
    case Restart => s.(entries := map[], workers := map[])
  }

  // ---- the driver's side, field by field ----

  /** self._async_copies with its lock: each method is one locked section. */
  class Copies {
    var entries: map<ShareId, Status>
    ghost var workers: map<ShareId, Worker>
    ghost var created: set<ShareId>
    ghost var copied: set<ShareId>

    constructor ()
      ensures Init(View()) && Inv(View())
    {
      entries, workers, created, copied := map[], map[], {}, {};
    }

    ghost function View(): State
      reads this
    {
      State(entries, workers, created, copied)
    }

    /** create_share_from_snapshot: the entry first, then the thread. */
    method Create(share: ShareId)
      requires Inv(View()) && Enabled(View(), Event.Create(share))
      modifies this
      ensures Inv(View()) && View() == Next(old(View()), Event.Create(share))
    {
      StepKeepsInv(View(), Event.Create(share));
      entries := entries[share := Creating];
      workers, created := workers[share := Copying], created + {share};
    }

    /** The copy itself, outside the lock: it returns or raises. */
    ghost method End(share: ShareId, ok: bool)
      requires Inv(View()) && Enabled(View(), CopyEnds(share, ok))
      modifies this
      ensures Inv(View()) && View() == Next(old(View()), CopyEnds(share, ok))
    {
      StepKeepsInv(View(), CopyEnds(share, ok));
      workers, copied := workers[share := Ended(ok)], if ok then copied + {share} else copied;
    }

    /** _run_snapshot_copy after the copy returned or raised. */
    method Record(share: ShareId, ok: bool)
      requires Inv(View()) && Enabled(View(), Event.Record(share)) && workers[share].ok == ok
      modifies this
      ensures Inv(View()) && View() == Next(old(View()), Event.Record(share))
    {
      StepKeepsInv(View(), Event.Record(share));
      entries := entries[share := if ok then Available else Error];
      workers := workers - {share};
    }

    /** _run_snapshot_copy: the copy, which returns or raises, and then the record of it. */
    method Run(share: ShareId, ok: bool)
      requires Inv(View()) && Enabled(View(), CopyEnds(share, ok))
      modifies this
      ensures Inv(View()) && View() == Next(Next(old(View()), CopyEnds(share, ok)), Event.Record(share))
      ensures Reported(View(), share) == if ok then Available else Error
    {
      End(share, ok);
      Record(share, ok);
    }

    /** get_share_status: available means that the copy finished, creating that a worker is still
        at it or about to record how it ended, and a share whose entry is lost reads error. */
    method Poll(share: ShareId) returns (seen: Status)
      requires Inv(View())
      ensures seen.Available? ==> share in copied && share !in workers
      ensures seen.Creating? <==> share in workers
      ensures share in created && share !in entries ==> seen.Error?
      ensures Enabled(View(), Event.Poll(share, seen))
    {
      if share !in entries {
        return Error;
      }
      return entries[share];
    }
  }

  // ---- runs ----

  ghost predicate Inv(s: State)
  {
    && s.entries.Keys <= s.created
    && s.copied <= s.created
    && (forall w | w in s.workers :: w in s.entries && s.entries[w].Creating? && (s.workers[w] == Ended(true) ==> w in s.copied))
    && (forall x | x in s.entries && s.entries[x].Creating? :: x in s.workers)
    && (forall x | x in s.entries && s.entries[x].Available? :: x in s.copied)
  }

  lemma StepKeepsInv(s: State, e: Event)
    requires Inv(s) && Enabled(s, e)
    ensures Inv(Next(s, e))
  {
  }

  /** A created share's report never leaves error, leaves available only by a restart, and
      never returns to creating. */
  lemma ReportsAdvance(s: State, e: Event, share: ShareId)
    requires Inv(s) && Enabled(s, e) && share in s.created
    ensures var s' := Next(s, e);
      && share in s'.created
      && (Reported(s, share).Error? ==> Reported(s', share).Error?)
      && (Reported(s, share).Available? && !e.Restart? ==> Reported(s', share).Available?)
      && (Reported(s', share).Creating? ==> Reported(s, share).Creating?)
      && (e.Restart? ==> Reported(s', share).Error?)
  {
  }

  /** A process that has handled no share yet. */
  ghost predicate Init(s: State)
  {
    s == State(map[], map[], {}, {})
  }

  ghost predicate IsRun(states: seq<State>, events: seq<Event>)
  {
    && |states| == |events| + 1
    && Init(states[0])
    && forall i | 0 <= i < |events| :: Enabled(states[i], events[i]) && states[i + 1] == Next(states[i], events[i])
  }

  lemma {:induction false} RunKeepsInv(states: seq<State>, events: seq<Event>, i: nat)
    requires IsRun(states, events) && i <= |events|
    ensures Inv(states[i])
  {
    if i > 0 {
      hide Inv;
      RunKeepsInv(states, events, i - 1);
      StepKeepsInv(states[i - 1], events[i - 1]);
    }
  }

  lemma {:induction false} ReportsAdvanceOver(states: seq<State>, events: seq<Event>, i: nat, j: nat, share: ShareId)
    requires IsRun(states, events) && i <= j <= |events| && share in states[i].created
    ensures share in states[j].created
    ensures Reported(states[i], share).Error? ==> Reported(states[j], share).Error?
    ensures Reported(states[i], share).Available? && (forall k | i <= k < j :: !events[k].Restart?) ==> Reported(states[j], share).Available?
    ensures Reported(states[j], share).Creating? ==> Reported(states[i], share).Creating?
    ensures (exists k | i <= k < j :: events[k].Restart?) ==> Reported(states[j], share).Error?
  {
    hide Inv, Reported;
    if i < j {
      ReportsAdvanceOver(states, events, i, j - 1, share);
      RunKeepsInv(states, events, j - 1);
      ReportsAdvance(states[j - 1], events[j - 1], share);
    }
  }

  /** Two polls of a created share, one after the other: creating is only ever seen before the
      outcome, the outcome never changes but for error after a restart, available is seen only
      once the copy has finished, and after a restart only error. */
  lemma PollsAreMonotone(states: seq<State>, events: seq<Event>, i: nat, j: nat, share: ShareId)
    requires IsRun(states, events) && i < j < |events| && share in states[i].created
    requires events[i].Poll? && events[i].share == share && events[j].Poll? && events[j].share == share
    ensures var first, second := events[i].seen, events[j].seen;
            var restarted := exists k | i <= k < j :: events[k].Restart?;
      && (second.Creating? ==> first.Creating?)
      && (first.Error? || restarted ==> second.Error?)
      && (first.Available? && !restarted ==> second.Available?)
      && (second.Available? ==> share in states[j].copied)
  {
    ReportsAdvanceOver(states, events, i, j, share);
    RunKeepsInv(states, events, j);
    assert Enabled(states[i], events[i]) && Enabled(states[j], events[j]);
  }
}
