/** Per-project organizations: the client cache behind its lock, and where filesystems are
    created, under any interleaving of threads. */
module Tenancy {
  import opened Results
  import Text

  type Tid = nat

  /** The organization prefix and the organization of the driver's own admin session. */
  datatype Config = Config(prefix: string, admin: string)

  /** _org_name: never truncated. */
  function OrgName(c: Config, project: string): string
  {
    c.prefix + Text.Remove(project, '-')
  }

  /** Two projects share an organization exactly when their ids agree without dashes. */
  lemma OrgNameInjective(c: Config, p: string, q: string)
    ensures OrgName(c, p) == OrgName(c, q) <==> Text.Remove(p, '-') == Text.Remove(q, '-')
  {
    assert OrgName(c, p)[|c.prefix|..] == Text.Remove(p, '-');
    assert OrgName(c, q)[|c.prefix|..] == Text.Remove(q, '-');
  }

  /** The prefix and the id; dashes in the id do not matter, and nothing else is dropped. */
  lemma OrgNameExactly(c: Config, p: string, q: string)
    ensures '-' !in p ==> OrgName(c, p) == c.prefix + p
    ensures OrgName(c, p + "-" + q) == OrgName(c, p + q)
  {
    Text.RemoveConcat(p + "-", q, '-');
    Text.RemoveConcat(p, "-", '-');
    Text.RemoveConcat(p, q, '-');
    Text.RemoveOne('-', '-');
    hide Text.Remove;
    assert Text.Remove(p + "-" + q, '-') == Text.Remove(p, '-') + Text.Remove(q, '-');
  }

  datatype Share = Share(proto: string, project: string)

  function Upper(s: string): string
  {
    if s == "" then "" else [if 'a' <= s[0] <= 'z' then s[0] - 'a' + 'A' else s[0]] + Upper(s[1..])
  }

  /** _is_isolated_wekafs */
  predicate IsIsolated(share: Share)
  {
    Upper(share.proto) == "WEKAFS"
  }

  /** Exactly the six letters, each in either case. */
  lemma IsolatedExactly(share: Share)
    ensures IsIsolated(share) <==>
            && |share.proto| == 6
            && share.proto[0] in "Ww" && share.proto[1] in "Ee" && share.proto[2] in "Kk"
            && share.proto[3] in "Aa" && share.proto[4] in "Ff" && share.proto[5] in "Ss"
  {
    var p := share.proto;
    UpperAt(p);
    hide Upper;
    if |p| == 6 {
      assert Upper(p) == [Upper(p)[0], Upper(p)[1], Upper(p)[2], Upper(p)[3], Upper(p)[4], Upper(p)[5]];
    }
  }

  lemma {:induction false} UpperAt(s: string)
    ensures |Upper(s)| == |s|
    ensures forall i | 0 <= i < |s| :: Upper(s)[i] == if 'a' <= s[i] <= 'z' then s[i] - 'a' + 'A' else s[i]
  {
    if s != "" {
      UpperAt(s[1..]);
    }
  }

  /** Inside _org_client (with its lock held), or holding the client _client_for_share returned,
      which stands for the organization it is logged in to. */
  datatype Phase = Outside | Checking(share: Share) | LoggingIn(share: Share) | Using(share: Share, org: string)

  /** Each organization's filesystems with their auth_required flag; the cached clients by
      project; successful logins cached. */
  datatype State = State(orgs: map<string, map<string, bool>>, cache: map<string, string>, logins: map<string, nat>,
                         holder: Option<Tid>, phase: map<Tid, Phase>)

  datatype Event =
    | Enter(t: Tid, share: Share)
    | Reuse(t: Tid)
    | Provision(t: Tid, applied: bool, answered: bool)
    | Login(t: Tid, ok: bool)
    | CreateFilesystem(t: Tid, fs: string)
    | Leave(t: Tid)

  function PhaseOf(s: State, t: Tid): Phase
  {
    if t in s.phase then s.phase[t] else Outside
  }

  /** A WEKAFS share without a project id never gets in, and one with an id waits for the lock;
      only the lock's holder moves inside it. A creation request may be applied and still fail;
      going on takes an organization that exists. */
  predicate Enabled(c: Config, s: State, e: Event)
  {
    match e
    case Enter(t, share) => PhaseOf(s, t).Outside? && (IsIsolated(share) ==> s.holder.None? && share.project != "")
    case Reuse(t) => PhaseOf(s, t).Checking? && PhaseOf(s, t).share.project in s.cache
    case Provision(t, applied, answered) =>
      && PhaseOf(s, t).Checking? && PhaseOf(s, t).share.project !in s.cache
      && (answered ==> applied || OrgName(c, PhaseOf(s, t).share.project) in s.orgs)
    case Login(t, _) => PhaseOf(s, t).LoggingIn?
    case CreateFilesystem(t, _) => PhaseOf(s, t).Using? && PhaseOf(s, t).org in s.orgs
    case Leave(t) => PhaseOf(s, t).Using?
  }

  /** Creating an organization whose name is taken changes nothing. */
  function WithOrg(s: State, org: string): State
  {
    if org in s.orgs then s else s.(orgs := s.orgs[org := map[]])
  }

  /** A name that is taken keeps its filesystem, whatever its flag. */
  function WithFs(s: State, org: string, fs: string, authRequired: bool): State
    requires org in s.orgs
  {
    if fs in s.orgs[org] then s else s.(orgs := s.orgs[org := s.orgs[org][fs := authRequired]])
  }

  function Next(c: Config, s: State, e: Event): State
    requires Enabled(c, s, e)
  {
    match e
    case Enter(t, share) =>
      if IsIsolated(share) then s.(holder := Some(t), phase := s.phase[t := Checking(share)])
      else s.(phase := s.phase[t := Using(share, c.admin)])
    case Reuse(t) =>
      var share := PhaseOf(s, t).share;
      s.(holder := None, phase := s.phase[t := Using(share, s.cache[share.project])])
    case Provision(t, applied, answered) =>
      var share := PhaseOf(s, t).share;
      var s' := if applied then WithOrg(s, OrgName(c, share.project)) else s;
      if answered then s'.(phase := s.phase[t := LoggingIn(share)]) else s'.(holder := None, phase := s.phase[t := Outside])
    case Login(t, ok) =>
      var share := PhaseOf(s, t).share;
      var p, org := share.project, OrgName(c, share.project);
      if ok then
        s.(cache := s.cache[p := org], logins := s.logins[p := Logins(s, p) + 1], holder := None,
           phase := s.phase[t := Using(share, org)])
      else s.(holder := None, phase := s.phase[t := Outside])
    case CreateFilesystem(t, fs) => WithFs(s, PhaseOf(s, t).org, fs, IsIsolated(PhaseOf(s, t).share))
    case Leave(t) => s.(phase := s.phase[t := Outside])
  }

  function Logins(s: State, p: string): nat
  {
    if p in s.logins then s.logins[p] else 0
  }

  /** Every filesystem of an organization with the prefix requires authentication. */
  ghost predicate Isolated(c: Config, orgs: map<string, map<string, bool>>)
  {
    forall org, fs | org in orgs && Text.StartsWith(org, c.prefix) && fs in orgs[org] :: orgs[org][fs]
  }

  /** The organization a share's operations belong in. */
  function ClientOf(c: Config, share: Share): string
  {
    if IsIsolated(share) then OrgName(c, share.project) else c.admin
  }

  ghost predicate Inv(c: Config, s: State)
  {
    && !Text.StartsWith(c.admin, c.prefix)
    && (forall p | p in s.cache :: s.cache[p] == OrgName(c, p) && s.cache[p] in s.orgs)
    && (forall p: string :: Logins(s, p) == if p in s.cache then 1 else 0)
    && (forall t | t in s.phase && (s.phase[t].Checking? || s.phase[t].LoggingIn?) :: s.holder == Some(t))
    && (forall t | t in s.phase && (s.phase[t].Checking? || s.phase[t].LoggingIn?) :: IsIsolated(s.phase[t].share))
    && (forall t | t in s.phase && s.phase[t].LoggingIn? ::
          s.phase[t].share.project !in s.cache && OrgName(c, s.phase[t].share.project) in s.orgs)
    && (forall t | t in s.phase && s.phase[t].Using? :: s.phase[t].org == ClientOf(c, s.phase[t].share))
    && (forall t | t in s.phase && !s.phase[t].Outside? && IsIsolated(s.phase[t].share) :: s.phase[t].share.project != "")
    && Isolated(c, s.orgs)
  }

  lemma StepKeepsInv(c: Config, s: State, e: Event)
    requires Inv(c, s) && Enabled(c, s, e)
    ensures Inv(c, Next(c, s, e))
  {
    hide Inv, Enabled, Next;
    match e
    case Enter(_, _) => EnterKeepsInv(c, s, e);
    case Reuse(_) => ReuseKeepsInv(c, s, e);
    case Leave(_) => LeaveKeepsInv(c, s, e);
    case Provision(_, _, _) => ProvisionKeepsInv(c, s, e);
    case Login(_, _) => LoginKeepsInv(c, s, e);
    case CreateFilesystem(_, _) => CreateKeepsInv(c, s, e);
  }

  lemma EnterKeepsInv(c: Config, s: State, e: Event)
    requires e.Enter? && Inv(c, s) && Enabled(c, s, e)
    ensures Inv(c, Next(c, s, e))
  {
    hide OrgName, Text.StartsWith, Isolated, IsIsolated;
  }

  lemma ReuseKeepsInv(c: Config, s: State, e: Event)
    requires e.Reuse? && Inv(c, s) && Enabled(c, s, e)
    ensures Inv(c, Next(c, s, e))
  {
    hide OrgName, Text.StartsWith, Isolated, IsIsolated;
  }

  lemma LeaveKeepsInv(c: Config, s: State, e: Event)
    requires e.Leave? && Inv(c, s) && Enabled(c, s, e)
    ensures Inv(c, Next(c, s, e))
  {
    hide OrgName, Text.StartsWith, Isolated, IsIsolated;
  }

  lemma ProvisionKeepsInv(c: Config, s: State, e: Event)
    requires e.Provision? && Inv(c, s) && Enabled(c, s, e)
    ensures Inv(c, Next(c, s, e))
  {
    hide Inv, OrgName, Text.StartsWith, IsIsolated;
    var share := PhaseOf(s, e.t).share;
    var s' := if e.applied then WithOrg(s, OrgName(c, share.project)) else s;
    WithOrgKeepsInv(c, s, OrgName(c, share.project));
    if e.answered {
      StartLoginKeepsInv(c, s', e.t, share);
    } else {
      GiveUpKeepsInv(c, s', e.t);
    }
  }

  lemma StartLoginKeepsInv(c: Config, s: State, t: Tid, share: Share)
    requires Inv(c, s) && PhaseOf(s, t) == Checking(share) && share.project !in s.cache && OrgName(c, share.project) in s.orgs
    ensures Inv(c, s.(phase := s.phase[t := LoggingIn(share)]))
  {
    hide OrgName, Text.StartsWith, Isolated, IsIsolated;
  }

  lemma GiveUpKeepsInv(c: Config, s: State, t: Tid)
    requires Inv(c, s) && PhaseOf(s, t).Checking?
    ensures Inv(c, s.(holder := None, phase := s.phase[t := Outside]))
  {
    hide OrgName, Text.StartsWith, Isolated, IsIsolated;
  }

  lemma WithOrgKeepsInv(c: Config, s: State, org: string)
    requires Inv(c, s)
    ensures Inv(c, WithOrg(s, org)) && WithOrg(s, org).(orgs := s.orgs) == s && WithOrg(s, org).orgs.Keys == s.orgs.Keys + {org}
  {
    hide OrgName, Text.StartsWith, IsIsolated;
  }

  lemma LoginKeepsInv(c: Config, s: State, e: Event)
    requires e.Login? && Inv(c, s) && Enabled(c, s, e)
    ensures Inv(c, Next(c, s, e))
  {
    hide OrgName, Text.StartsWith, IsIsolated;
  }

  lemma CreateKeepsInv(c: Config, s: State, e: Event)
    requires e.CreateFilesystem? && Inv(c, s) && Enabled(c, s, e)
    ensures Inv(c, Next(c, s, e))
  {
    var share := PhaseOf(s, e.t).share;
    assert PhaseOf(s, e.t).org == ClientOf(c, share);
    hide OrgName, Text.StartsWith, IsIsolated;
  }

  /** A driver just started, on a cluster where every filesystem in an organization with the
      prefix requires authentication; the admin session's own has another name. */
  ghost predicate Init(c: Config, s: State)
  {
    && !Text.StartsWith(c.admin, c.prefix)
    && s.cache == map[] && s.logins == map[] && s.holder == None && s.phase == map[]
    && Isolated(c, s.orgs)
  }

  ghost predicate IsRun(c: Config, states: seq<State>, events: seq<Event>)
  {
    && |states| == |events| + 1
    && Init(c, states[0])
    && forall i | 0 <= i < |events| :: Enabled(c, states[i], events[i]) && states[i + 1] == Next(c, states[i], events[i])
  }

  lemma {:induction false} RunKeepsInv(c: Config, states: seq<State>, events: seq<Event>, i: nat)
    requires IsRun(c, states, events) && i <= |events|
    ensures Inv(c, states[i])
  {
    if i > 0 {
      hide Inv;
      RunKeepsInv(c, states, events, i - 1);
      StepKeepsInv(c, states[i - 1], events[i - 1]);
    }
  }

  /** In every run: a cached client is logged in to its project's own organization; a project's
      login is cached at most once; a thread works for a WEKAFS share in its project's
      organization and for any other in the admin one, so that WEKAFS shares of projects that
      differ beyond dashes are in different organizations and never in the admin one; and every
      filesystem in an organization with the prefix requires authentication. */
  lemma TenantsAreIsolated(c: Config, states: seq<State>, events: seq<Event>, i: nat)
    requires IsRun(c, states, events) && i <= |events|
    ensures forall p | p in states[i].cache :: states[i].cache[p] == OrgName(c, p)
    ensures forall p: string :: Logins(states[i], p) <= 1
    ensures forall t | t in states[i].phase && states[i].phase[t].Using? :: states[i].phase[t].org == ClientOf(c, states[i].phase[t].share)
    ensures forall t, u | t in states[i].phase && u in states[i].phase && Tenant(states[i].phase[t]) && states[i].phase[u].Using? ::
      states[i].phase[t].org == states[i].phase[u].org <==>
        Tenant(states[i].phase[u]) && Text.Remove(states[i].phase[t].share.project, '-') == Text.Remove(states[i].phase[u].share.project, '-')
    ensures Isolated(c, states[i].orgs)
    // No thread works for a WEKAFS share without a project id, and at most one is looking up,
    // provisioning or logging in.
    ensures forall t | t in states[i].phase && Tenant(states[i].phase[t]) :: states[i].phase[t].share.project != ""
    ensures forall t, u | t in states[i].phase && u in states[i].phase && t != u ::
      var p, q := states[i].phase[t], states[i].phase[u];
      !((p.Checking? || p.LoggingIn?) && (q.Checking? || q.LoggingIn?))
  {
    RunKeepsInv(c, states, events, i);
    hide OrgName, IsIsolated, Text.StartsWith;
    var s := states[i];
    forall t, u | t in s.phase && u in s.phase && Tenant(s.phase[t]) && s.phase[u].Using?
      ensures s.phase[t].org == s.phase[u].org <==>
        Tenant(s.phase[u]) && Text.Remove(s.phase[t].share.project, '-') == Text.Remove(s.phase[u].share.project, '-')
    {
      OrgNameInjective(c, s.phase[t].share.project, s.phase[u].share.project);
      TenantOrgIsNotAdmin(c, s.phase[t].share.project);
    }
  }

  /** A client is cached only by a login for its project that succeeded. */
  lemma {:induction false} CachedByLogin(c: Config, states: seq<State>, events: seq<Event>, i: nat, p: string)
    requires IsRun(c, states, events) && i <= |events| && p in states[i].cache
    ensures exists j :: 0 <= j < i && events[j].Login? && events[j].ok && PhaseOf(states[j], events[j].t).LoggingIn? &&
                        PhaseOf(states[j], events[j].t).share.project == p
  {
    if i > 0 {
      assert Enabled(c, states[i - 1], events[i - 1]) && states[i] == Next(c, states[i - 1], events[i - 1]);
      hide OrgName, IsIsolated;
      if p in states[i - 1].cache {
        CachedByLogin(c, states, events, i - 1, p);
      } else {
        OnlyLoginCaches(c, states[i - 1], events[i - 1], p);
      }
    }
  }

  lemma OnlyLoginCaches(c: Config, s: State, e: Event, p: string)
    requires Enabled(c, s, e) && p !in s.cache && p in Next(c, s, e).cache
    ensures e.Login? && e.ok && PhaseOf(s, e.t).LoggingIn? && PhaseOf(s, e.t).share.project == p
  {
    hide OrgName, IsIsolated;
  }

  /** A filesystem is created in the project's organization with authentication required for a
      WEKAFS share, and in the admin one without for any other. */
  lemma CreationsGoHome(c: Config, states: seq<State>, events: seq<Event>, i: nat)
    requires IsRun(c, states, events) && i < |events| && events[i].CreateFilesystem?
    ensures PhaseOf(states[i], events[i].t).Using?
    ensures var share, fs := PhaseOf(states[i], events[i].t).share, events[i].fs;
      var org := if IsIsolated(share) then c.prefix + Text.Remove(share.project, '-') else c.admin;
      && org in states[i].orgs && org in states[i + 1].orgs && fs in states[i + 1].orgs[org]
      && states[i + 1].orgs[org][fs] == if fs in states[i].orgs[org] then states[i].orgs[org][fs] else IsIsolated(share)
  {
    RunKeepsInv(c, states, events, i);
    hide IsIsolated, Text.StartsWith, Isolated;
    assert Enabled(c, states[i], events[i]) && states[i + 1] == Next(c, states[i], events[i]);
    assert PhaseOf(states[i], events[i].t).org == ClientOf(c, PhaseOf(states[i], events[i].t).share);
  }

  /** Whatever filesystem there is stays where it is, with its flag. */
  lemma {:induction false} FilesystemsStay(c: Config, states: seq<State>, events: seq<Event>, i: nat, j: nat, org: string, fs: string)
    requires IsRun(c, states, events) && i <= j <= |events| && org in states[i].orgs && fs in states[i].orgs[org]
    ensures org in states[j].orgs && fs in states[j].orgs[org] && states[j].orgs[org][fs] == states[i].orgs[org][fs]
  {
    hide Next, Enabled;
    if i < j {
      FilesystemsStay(c, states, events, i, j - 1, org, fs);
      assert Enabled(c, states[j - 1], events[j - 1]) && states[j] == Next(c, states[j - 1], events[j - 1]);
      FilesystemStays(c, states[j - 1], events[j - 1], org, fs);
    }
  }

  lemma FilesystemStays(c: Config, s: State, e: Event, org: string, fs: string)
    requires Enabled(c, s, e) && org in s.orgs && fs in s.orgs[org]
    ensures var s' := Next(c, s, e); org in s'.orgs && fs in s'.orgs[org] && s'.orgs[org][fs] == s.orgs[org][fs]
  {
    hide OrgName, IsIsolated;
  }

  /** Working for a WEKAFS share. */
  predicate Tenant(p: Phase)
  {
    p.Using? && IsIsolated(p.share)
  }

  lemma TenantOrgIsNotAdmin(c: Config, project: string)
    requires !Text.StartsWith(c.admin, c.prefix)
    ensures OrgName(c, project) != c.admin && Text.StartsWith(OrgName(c, project), c.prefix)
  {
  }
}
