/** The Gerrit listener: which events trigger a run, and how often, across crashes. */
module Listener {
  import opened Results

  const PROJECT := "openstack/manila"
  const BRANCH := "master"

  /** A (change, patchset) pair. */
  type Key = (string, string)

  /** What the listener reads off one stream event; whether a comment matches the two trigger
      words is taken as given. */
  datatype GerritEvent = GerritEvent(kind: string, project: string, branch: string, runWekaCi: bool, recheck: bool,
                                     author: string, key: Key, revision: string)

  datatype Config = Config(autoRun: bool, trusted: set<string>)

  datatype Trigger = Trigger(key: Key, revision: string, isRecheck: bool)

  /** parse_event */
  function ParseEvent(c: Config, e: GerritEvent): Option<Trigger>
  {
    if e.project != PROJECT || e.branch != BRANCH then None
    else if e.kind == "patchset-created" then
      if c.autoRun then Some(Trigger(e.key, e.revision, false)) else None
    else if e.kind == "comment-added" then
      var triggered := e.runWekaCi || (c.autoRun && e.recheck);
      if triggered && (c.trusted == {} || e.author in c.trusted) then Some(Trigger(e.key, e.revision, true)) else None
    else None
  }

  /** Where the process dies while handling an event, if it does: before, in or after one of the
      two state-file writes. The write truncates the file first, and what is left of a torn one
      is no JSON, so that it loads as no pairs at all. */
  datatype Crash = Never | BeforeClear | TornClear | AfterClear | BeforeMark | TornMark | AfterMark

  datatype Input = Input(event: GerritEvent, crash: Crash)

  /** Recheck triggers accepted for a key. */
  function Rechecks(c: Config, inputs: seq<Input>, k: Key): nat
  {
    if inputs == [] then 0
    else
      var t := ParseEvent(c, inputs[|inputs| - 1].event);
      Rechecks(c, inputs[..|inputs| - 1], k) + if t.Some? && t.value.isRecheck && t.value.key == k then 1 else 0
  }

  /** Runs started for a key. */
  function Count(runs: seq<Key>, k: Key): nat
  {
    multiset(runs)[k]
  }

  /** Crashes in the middle of a write. */
  function Torn(inputs: seq<Input>): nat
  {
    if inputs == [] then 0
    else Torn(inputs[..|inputs| - 1]) + if inputs[|inputs| - 1].crash.TornClear? || inputs[|inputs| - 1].crash.TornMark? then 1 else 0
  }

  /** What outlives the process: the pairs the state file loads as, and the runs started. */
  datatype Record = Record(disk: set<Key>, runs: seq<Key>)

  /** One event's effect on it. */
  function Handled(c: Config, s: Record, i: Input): Record
  {
    match ParseEvent(c, i.event)
    case None => s
    case Some(t) =>
      var cleared := if t.isRecheck then s.disk - {t.key} else s.disk;
      if t.isRecheck && i.crash.BeforeClear? then s
      else if t.isRecheck && i.crash.TornClear? then s.(disk := {})
      else if (t.isRecheck && i.crash.AfterClear?) || t.key in cleared || i.crash.BeforeMark? then s.(disk := cleared)
      else if i.crash.TornMark? then s.(disk := {})
      else if i.crash.AfterMark? then s.(disk := cleared + {t.key})
      else Record(cleared + {t.key}, s.runs + [t.key])
  }

  function AllHandled(c: Config, s: Record, inputs: seq<Input>): Record
  {
    if inputs == [] then s else Handled(c, AllHandled(c, s, inputs[..|inputs| - 1]), inputs[|inputs| - 1])
  }

  class Listener {
    const config: Config
    /** The pairs in memory, those the state file loads as, and the runs started so far. */
    var tested: set<Key>
    var disk: set<Key>
    var runs: seq<Key>

    constructor (config: Config, disk: set<Key>)
      ensures this.config == config && this.disk == disk && tested == disk && runs == []
    {
      this.config, this.disk, this.tested, this.runs := config, disk, disk, [];
    }

    /** A restart: load_state. */
    method Reload()
      modifies this`tested
      ensures tested == disk
    {
      tested := disk;
    }

    /** The body of main's loop, up to where the process dies. `crashed` is whether it did. */
    method Handle(event: GerritEvent, crash: Crash) returns (crashed: bool)
      modifies this`tested, this`disk, this`runs
      requires tested == disk
      ensures Record(disk, runs) == Handled(config, Record(old(disk), old(runs)), Input(event, crash))
      ensures !crashed ==> tested == disk
      ensures crash.Never? ==> !crashed
    {
      var parsed := ParseEvent(config, event);
      if parsed.None? {
        return false;
      }
      var key := parsed.value.key;
      if parsed.value.isRecheck {
        tested := tested - {key};
        if crash.BeforeClear? {
          return true;
        }
        disk := if crash.TornClear? then {} else tested;
        if crash.TornClear? || crash.AfterClear? {
          return true;
        }
      }
      if key in tested {
        return false;
      }
      tested := tested + {key};
      if crash.BeforeMark? {
        return true;
      }
      disk := if crash.TornMark? then {} else tested;
      if crash.TornMark? || crash.AfterMark? {
        return true;
      }
      runs := runs + [key];
      return false;
    }

    /** Any stream of events, with a crash and restart anywhere in the handling of any of them. */
    method Listen(inputs: seq<Input>)
      requires tested == disk && runs == []
      modifies this
      ensures tested == disk
      ensures Record(disk, runs) == AllHandled(config, Record(old(disk), []), inputs)
      // Once per accepted recheck, once more for a pair not recorded as tested before, and once
      // more for each write that is torn.
      ensures forall k :: Count(runs, k) <= Rechecks(config, inputs, k) + (if k in old(disk) then 0 else 1) + Torn(inputs)
      // And at least that often, but for the extra runs, if the process never dies.
      ensures (forall i | 0 <= i < |inputs| :: inputs[i].crash.Never?) ==> forall k :: Count(runs, k) >= Rechecks(config, inputs, k)
    {
      ghost var disk0 := disk;
      for i := 0 to |inputs|
        invariant tested == disk
        invariant Record(disk, runs) == AllHandled(config, Record(disk0, []), inputs[..i])
      {
        assert inputs[..i + 1][..i] == inputs[..i];
        var crashed := Handle(inputs[i].event, inputs[i].crash);
        if crashed {
          Reload();
        }
      }
      assert inputs[..|inputs|] == inputs;
      forall k: Key
        ensures Count(runs, k) <= Rechecks(config, inputs, k) + (if k in disk0 then 0 else 1) + Torn(inputs)
      {
        RunsAreBounded(config, disk0, inputs, k);
      }
      if Calm(inputs) {
        forall k: Key
          ensures Count(runs, k) >= Rechecks(config, inputs, k)
        {
          CalmRuns(config, disk0, inputs, k);
        }
      }
    }
  }

  // ---- what triggers a run ----

  /** An event triggers a run exactly if it is on the project's master branch and is either a new
      patchset, in automatic mode, or a comment that asks for the Weka run, or in automatic mode
      for any recheck, by a trusted user where there are any. Only the comment is a recheck. */
  lemma TriggersExactly(c: Config, e: GerritEvent)
    ensures ParseEvent(c, e).Some? <==>
            && e.project == "openstack/manila" && e.branch == "master"
            && (|| (e.kind == "patchset-created" && c.autoRun)
                || (&& e.kind == "comment-added" && (e.runWekaCi || (c.autoRun && e.recheck))
                    && (c.trusted == {} || e.author in c.trusted)))
    ensures ParseEvent(c, e).Some? ==> ParseEvent(c, e).value == Trigger(e.key, e.revision, e.kind == "comment-added")
  {
  }

  /** Handled without a crash, whatever came before: a recheck that triggers runs its pair, a new
      patchset runs its own if it is not recorded, and either is recorded then; no other event
      does anything. */
  lemma CalmHandled(c: Config, s: Record, e: GerritEvent)
    ensures var s' := Handled(c, s, Input(e, Never));
      if ParseEvent(c, e).Some? && (e.kind == "comment-added" || e.key !in s.disk)
      then s'.runs == s.runs + [e.key] && s'.disk == s.disk + {e.key}
      else s' == s
  {
    TriggersExactly(c, e);
    hide ParseEvent;
    assert s.disk - {e.key} + {e.key} == s.disk + {e.key};
  }

  /** However handling an event dies, it starts no run but that of its own pair, and that pair is
      recorded first. */
  lemma RecordedBeforeRun(c: Config, s: Record, i: Input)
    ensures var s' := Handled(c, s, i);
      s'.runs == s.runs || (s'.runs == s.runs + [i.event.key] && i.event.key in s'.disk)
  {
    TriggersExactly(c, i.event);
    hide ParseEvent;
  }

  ghost predicate Calm(inputs: seq<Input>)
  {
    forall i | 0 <= i < |inputs| :: inputs[i].crash.Never?
  }

  /** Some event triggers a run of the pair. */
  ghost predicate Asked(c: Config, inputs: seq<Input>, k: Key)
  {
    exists i | 0 <= i < |inputs| :: ParseEvent(c, inputs[i].event).Some? && inputs[i].event.key == k
  }

  /** Over a stream without crashes a pair runs at least once per accepted recheck, and once if an
      event triggers it and it was not recorded at the start. */
  lemma {:induction false} CalmRuns(c: Config, disk: set<Key>, inputs: seq<Input>, k: Key)
    requires Calm(inputs)
    ensures var s := AllHandled(c, Record(disk, []), inputs);
      && Count(s.runs, k) >= Rechecks(c, inputs, k)
      && (k in s.disk <==> k in disk || Asked(c, inputs, k))
      && (Asked(c, inputs, k) && k !in disk ==> Count(s.runs, k) >= 1)
  {
    hide Handled, ParseEvent, Count;
    if inputs != [] {
      var n := |inputs| - 1;
      var front, e := inputs[..n], inputs[n].event;
      CalmRuns(c, disk, front, k);
      var s := AllHandled(c, Record(disk, []), front);
      assert inputs[n] == Input(e, Never);
      CalmHandled(c, s, e);
      TriggersExactly(c, e);
      OneMoreRun(s.runs, e.key, k);
      assert Asked(c, inputs, k) <==> Asked(c, front, k) || (ParseEvent(c, e).Some? && e.key == k) by {
        AskedOneMore(c, inputs, k);
      }
    }
  }

  lemma AskedOneMore(c: Config, inputs: seq<Input>, k: Key)
    requires inputs != []
    ensures var e := inputs[|inputs| - 1].event;
      Asked(c, inputs, k) <==> Asked(c, inputs[..|inputs| - 1], k) || (ParseEvent(c, e).Some? && e.key == k)
  {
    hide ParseEvent;
    var n := |inputs| - 1;
    if i :| 0 <= i < n && ParseEvent(c, inputs[..n][i].event).Some? && inputs[..n][i].event.key == k {
      assert inputs[i] == inputs[..n][i];
    }
    if i :| 0 <= i < |inputs| && ParseEvent(c, inputs[i].event).Some? && inputs[i].event.key == k {
      assert i == n || inputs[i] == inputs[..n][i];
    }
  }

  // ---- how often a pair runs ----

  /** A key the file does not record has a run to spare; one recorded from the start has none. */
  ghost predicate Budgeted(c: Config, inputs: seq<Input>, s: Record, disk0: set<Key>, k: Key)
  {
    Count(s.runs, k) + (if k in s.disk then 0 else 1) <= Rechecks(c, inputs, k) + (if k in disk0 then 0 else 1) + Torn(inputs)
  }

  /** Handling one event keeps the budget of every key. */
  lemma BudgetStep(c: Config, inputs: seq<Input>, s: Record, disk0: set<Key>, k: Key)
    requires inputs != [] && Budgeted(c, inputs[..|inputs| - 1], s, disk0, k)
    ensures Budgeted(c, inputs, Handled(c, s, inputs[|inputs| - 1]), disk0, k)
  {
    match ParseEvent(c, inputs[|inputs| - 1].event)
    case None =>
    case Some(t) =>
      OneMoreRun(s.runs, t.key, k);
      hide ParseEvent, Count;
  }

  /** A pair runs at most once per accepted recheck, once more if it was not recorded at the
      start, and once more per torn write. */
  lemma {:induction false} RunsAreBounded(c: Config, disk: set<Key>, inputs: seq<Input>, k: Key)
    ensures Budgeted(c, inputs, AllHandled(c, Record(disk, []), inputs), disk, k)
    ensures Count(AllHandled(c, Record(disk, []), inputs).runs, k) <= Rechecks(c, inputs, k) + (if k in disk then 0 else 1) + Torn(inputs)
  {
    hide Handled;
    if inputs == [] {
      assert Count([], k) == 0;
    } else {
      RunsAreBounded(c, disk, inputs[..|inputs| - 1], k);
      BudgetStep(c, inputs, AllHandled(c, Record(disk, []), inputs[..|inputs| - 1]), disk, k);
    }
  }

  /** The torn write counts: one that dies recording another pair makes a recorded pair run
      again when its event comes again, though nobody asked for a recheck. */
  lemma TornWriteReruns(c: Config, e: GerritEvent, f: GerritEvent)
    requires ParseEvent(c, e).Some? && !ParseEvent(c, e).value.isRecheck
    requires ParseEvent(c, f).Some? && !ParseEvent(c, f).value.isRecheck
    requires ParseEvent(c, e).value.key != ParseEvent(c, f).value.key
    ensures var k, inputs := ParseEvent(c, e).value.key, [Input(e, Never), Input(f, TornMark), Input(e, Never)];
      Rechecks(c, inputs, k) == 0 && Count(AllHandled(c, Record({}, []), inputs).runs, k) == 2
  {
    hide ParseEvent;
    var k, s1 := ParseEvent(c, e).value.key, [Input(e, Never)];
    var s2 := s1 + [Input(f, TornMark)];
    var s3 := s2 + [Input(e, Never)];
    assert s1[..0] == [] && s2[..1] == s1 && s3[..2] == s2;
    assert AllHandled(c, Record({}, []), s1) == Record({k}, [k]);
    assert AllHandled(c, Record({}, []), s2) == Record({}, [k]);
    assert AllHandled(c, Record({}, []), s3) == Record({k}, [k, k]);
    assert Rechecks(c, s1, k) == 0;
    assert Rechecks(c, s2, k) == 0;
    assert s3 == [Input(e, Never), Input(f, TornMark), Input(e, Never)];
  }

  lemma OneMoreRun(runs: seq<Key>, key: Key, k: Key)
    ensures Count(runs + [key], k) == Count(runs, k) + if k == key then 1 else 0
  {
  }
}
