/** The Weka cluster as one organization's session sees it: its state, what the
    server does with each write request, and a client that retries over a lossy channel. */
module Cluster {
  import opened Results
  import Net

  type Uid = nat

  /** Exceptions that reach the driver. Overloaded stands for 429 and anonymous 5xx
      replies, AlreadyPresent for the 500 of a repeated attach, Hangup for a
      connection error or timeout, Denied for a 401 or 403 that has nothing to do with
      what was asked: a login that is locked out, or refused. */
  datatype Error =
    | NotFound | Conflict | AlreadyExists | AlreadyPresent | Capacity | Rejected
    | Overloaded | Hangup | Denied
    | BadAddress | InvalidAccess | InsufficientCapacity | CommandFailed

  /** Instances of WekaApiError. */
  predicate IsApiError(e: Error)
  {
    e.NotFound? || e.Conflict? || e.AlreadyExists? || e.AlreadyPresent? || e.Rejected? || e.Overloaded? || e.Denied?
  }

  /** _is_already_exists_error */
  predicate IsAlreadyExists(e: Error)
  {
    e.Conflict? || e.AlreadyExists?
  }

  /** _is_already_attached_error */
  predicate IsAlreadyAttached(e: Error)
  {
    e.AlreadyPresent?
  }

  datatype Filesystem = Filesystem(name: string, size: nat, authRequired: bool)
  datatype Policy = Policy(name: string, ips: seq<string>, readOnly: bool)
  datatype Group = Group(name: string, rules: map<Uid, string>)
  datatype Permission = Permission(fs: string, group: string, kind: string)

  datatype State = State(
    users: set<string>,
    filesystems: map<Uid, Filesystem>,
    free: nat,
    policies: map<Uid, Policy>,
    attached: set<(Uid, Uid)>,
    groups: map<Uid, Group>,
    perms: map<Uid, Permission>,
    next: Uid)

  ghost predicate WellFormed(st: State)
  {
    && (forall u | u in st.filesystems :: u < st.next)
    && (forall u | u in st.policies :: u < st.next)
    && (forall u | u in st.perms :: u < st.next)
    && (forall u | u in st.groups :: u < st.next && forall r | r in st.groups[u].rules :: r < st.next && '/' in st.groups[u].rules[r])
    && (forall u, v | u in st.filesystems && v in st.filesystems && u != v :: st.filesystems[u].name != st.filesystems[v].name)
    && (forall u, v | u in st.policies && v in st.policies && u != v :: st.policies[u].name != st.policies[v].name)
    && (forall u, v | u in st.groups && v in st.groups && u != v :: st.groups[u].name != st.groups[v].name)
    && (forall a | a in st.attached :: a.0 in st.filesystems && a.1 in st.policies)
  }

  // ---- write requests ----

  datatype Op =
    | CreateUser(user: string)
    | CreateFilesystem(fsName: string, size: nat, authRequired: bool)
    | DeleteFilesystem(fs: Uid)
    | CreatePolicy(policyName: string, ips: seq<string>, readOnly: bool)
    | AddIp(policy: Uid, ip: string)
    | RemoveIp(policy: Uid, ip: string)
    | DeletePolicy(policy: Uid)
    | Attach(fs: Uid, policy: Uid)
    | Detach(fs: Uid, policy: Uid)
    | CreateGroup(groupName: string)
    | AddRule(group: Uid, address: string)
    | DeleteRule(group: Uid, rule: Uid)
    | DeleteGroup(group: Uid)
    | CreatePerm(permGroup: string, permFs: string, kind: string)
    | DeletePerm(perm: Uid)

  datatype Answer = Created(uid: Uid) | Done | Refused(error: Error)

  function Without(s: seq<string>, x: string): (r: seq<string>)
    ensures forall y :: y in r <==> y in s && y != x
    ensures x !in s ==> r == s
  {
    if s == [] then [] else
      assert s == [s[0]] + s[1..];
      (if s[0] == x then [] else [s[0]]) + Without(s[1..], x)
  }

  /** How the server applies one write request and what it answers. */
  function Serve(st: State, op: Op): (State, Answer)
  {
    match op
    case CreateUser(user) =>
      if user in st.users then (st, Refused(AlreadyExists))
      else (st.(users := st.users + {user}), Done)
    case CreateFilesystem(name, size, auth) =>
      if exists u | u in st.filesystems :: st.filesystems[u].name == name then (st, Refused(Conflict))
      else if size > st.free then (st, Refused(Capacity))
      else (st.(filesystems := st.filesystems[st.next := Filesystem(name, size, auth)],
                free := st.free - size, next := st.next + 1), Created(st.next))
    case DeleteFilesystem(fs) =>
      if fs !in st.filesystems then (st, Refused(NotFound))
      else (st.(filesystems := st.filesystems - {fs}, free := st.free + st.filesystems[fs].size,
                attached := set a | a in st.attached && a.0 != fs), Done)
    case CreatePolicy(name, ips, readOnly) =>
      if exists u | u in st.policies :: st.policies[u].name == name then (st, Refused(Conflict))
      else (st.(policies := st.policies[st.next := Policy(name, ips, readOnly)], next := st.next + 1), Created(st.next))
    case AddIp(p, ip) =>
      if p !in st.policies then (st, Refused(NotFound))
      else if ip in st.policies[p].ips then (st, Refused(AlreadyExists))
      else (st.(policies := st.policies[p := st.policies[p].(ips := st.policies[p].ips + [ip])]), Done)
    case RemoveIp(p, ip) =>
      if p !in st.policies then (st, Refused(NotFound))
      else (st.(policies := st.policies[p := st.policies[p].(ips := Without(st.policies[p].ips, ip))]), Done)
    case DeletePolicy(p) =>
      if p !in st.policies then (st, Refused(NotFound))
      else (st.(policies := st.policies - {p}, attached := set a | a in st.attached && a.1 != p), Done)
    case Attach(fs, p) =>
      if fs !in st.filesystems || p !in st.policies then (st, Refused(NotFound))
      else if (fs, p) in st.attached then (st, Refused(AlreadyPresent))
      else (st.(attached := st.attached + {(fs, p)}), Done)
    case Detach(fs, p) =>
      if (fs, p) !in st.attached then (st, Refused(Rejected))
      else (st.(attached := st.attached - {(fs, p)}), Done)
    case CreateGroup(name) =>
      if exists u | u in st.groups :: st.groups[u].name == name then (st, Refused(Conflict))
      else (st.(groups := st.groups[st.next := Group(name, map[])], next := st.next + 1), Created(st.next))
    case AddRule(g, address) =>
      if g !in st.groups then (st, Refused(NotFound))
      else if Net.Echo(address) in st.groups[g].rules.Values then (st, Refused(AlreadyExists))
      else (st.(groups := st.groups[g := st.groups[g].(rules := st.groups[g].rules[st.next := Net.Echo(address)])],
                next := st.next + 1), Created(st.next))
    case DeleteRule(g, r) =>
      if g !in st.groups || r !in st.groups[g].rules then (st, Refused(NotFound))
      else (st.(groups := st.groups[g := st.groups[g].(rules := st.groups[g].rules - {r})]), Done)
    case DeleteGroup(g) =>
      if g !in st.groups then (st, Refused(NotFound))
      else if st.groups[g].rules != map[] then (st, Refused(Rejected))
      else (st.(groups := st.groups - {g}), Done)
    case CreatePerm(group, fs, kind) =>
      (st.(perms := st.perms[st.next := Permission(fs, group, kind)], next := st.next + 1), Created(st.next))
    case DeletePerm(u) =>
      if u !in st.perms then (st, Refused(NotFound))
      else (st.(perms := st.perms - {u}), Done)
  }

  lemma ServeWellFormed(st: State, op: Op)
    requires WellFormed(st)
    ensures WellFormed(Serve(st, op).0)
  {
    hide Serve, WellFormed;
    if op.CreateFilesystem? || op.DeleteFilesystem? {
      FilesystemsStayWellFormed(st, op);
    } else if op.CreateUser? || op.CreatePerm? || op.DeletePerm? {
      PermsStayWellFormed(st, op);
    } else if op.CreateGroup? || op.DeleteGroup? {
      GroupsStayWellFormed(st, op);
    } else if op.AddRule? || op.DeleteRule? {
      RulesStayWellFormed(st, op);
    } else if op.CreatePolicy? || op.AddIp? || op.RemoveIp? {
      PoliciesStayWellFormed(st, op);
    } else {
      AttachmentsStayWellFormed(st, op);
    }
  }

  lemma FilesystemsStayWellFormed(st: State, op: Op)
    requires WellFormed(st) && (op.CreateFilesystem? || op.DeleteFilesystem?)
    ensures WellFormed(Serve(st, op).0)
  {
  }

  lemma PermsStayWellFormed(st: State, op: Op)
    requires WellFormed(st) && (op.CreateUser? || op.CreatePerm? || op.DeletePerm?)
    ensures WellFormed(Serve(st, op).0)
  {
  }

  lemma GroupsStayWellFormed(st: State, op: Op)
    requires WellFormed(st) && (op.CreateGroup? || op.DeleteGroup?)
    ensures WellFormed(Serve(st, op).0)
  {
  }

  lemma RulesStayWellFormed(st: State, op: Op)
    requires WellFormed(st) && (op.AddRule? || op.DeleteRule?)
    ensures WellFormed(Serve(st, op).0)
  {
  }

  lemma PoliciesStayWellFormed(st: State, op: Op)
    requires WellFormed(st) && (op.CreatePolicy? || op.AddIp? || op.RemoveIp?)
    ensures WellFormed(Serve(st, op).0)
  {
  }

  lemma AttachmentsStayWellFormed(st: State, op: Op)
    requires WellFormed(st) && (op.DeletePolicy? || op.Attach? || op.Detach?)
    ensures WellFormed(Serve(st, op).0)
  {
  }

  /** What the server answers to a request it has already carried out: something the driver's
      error predicates recognise, or that there is nothing left to delete. */
  predicate Repeated(op: Op, a: Answer)
  {
    match op
    case RemoveIp(_, _) => a == Done
    case Attach(_, _) => a.Refused? && IsAlreadyAttached(a.error)
    case Detach(_, _) => a == Refused(Rejected)
    case DeleteFilesystem(_) => a == Refused(NotFound)
    case DeletePolicy(_) => a == Refused(NotFound)
    case DeleteRule(_, _) => a == Refused(NotFound)
    case DeleteGroup(_) => a == Refused(NotFound)
    case DeletePerm(_) => a == Refused(NotFound)
    case CreatePerm(_, _, _) => a.Created?
    case _ => a.Refused? && IsAlreadyExists(a.error)
  }

  /** A request repeated: what was refused is refused alike, what was done answers as repeated. */
  predicate AgainAnswer(st: State, op: Op)
  {
    var (st', a) := Serve(st, op);
    if a.Refused? then st' == st else Repeated(op, Serve(st', op).1)
  }

  /** Every write but the creation of a permission leaves the server, applied twice, as applied
      once, and the second answer tells the driver so. */
  lemma ServeTwice(st: State, op: Op)
    requires !op.CreatePerm?
    ensures Serve(Serve(st, op).0, op).0 == Serve(st, op).0
    ensures AgainAnswer(st, op)
  {
    hide Serve, AgainAnswer;
    if op.CreateUser? || op.CreateFilesystem? || op.DeleteFilesystem? || op.DeletePerm? {
      FilesystemTwice(st, op);
    } else if op.CreatePolicy? || op.AddIp? || op.RemoveIp? || op.DeletePolicy? {
      PolicyTwice(st, op);
    } else if op.Attach? || op.Detach? {
      AttachmentTwice(st, op);
    } else {
      GroupTwice(st, op);
    }
  }

  lemma FilesystemTwice(st: State, op: Op)
    requires op.CreateUser? || op.CreateFilesystem? || op.DeleteFilesystem? || op.DeletePerm?
    ensures Serve(Serve(st, op).0, op).0 == Serve(st, op).0 && AgainAnswer(st, op)
  {
    var st' := Serve(st, op).0;
    if op.CreateFilesystem? && st' != st {
      assert st'.filesystems[st.next].name == op.fsName;
    }
  }

  lemma PolicyTwice(st: State, op: Op)
    requires op.CreatePolicy? || op.AddIp? || op.RemoveIp? || op.DeletePolicy?
    ensures Serve(Serve(st, op).0, op).0 == Serve(st, op).0 && AgainAnswer(st, op)
  {
    var st' := Serve(st, op).0;
    if op.CreatePolicy? && st' != st {
      assert st'.policies[st.next].name == op.policyName;
    }
    if op.RemoveIp? && op.policy in st.policies {
      assert st'.policies[op.policy].ips == Without(st'.policies[op.policy].ips, op.ip);
      assert Serve(st', op).0.policies == st'.policies;
    }
  }

  lemma AttachmentTwice(st: State, op: Op)
    requires op.Attach? || op.Detach?
    ensures Serve(Serve(st, op).0, op).0 == Serve(st, op).0 && AgainAnswer(st, op)
  {
  }

  lemma GroupTwice(st: State, op: Op)
    requires op.CreateGroup? || op.AddRule? || op.DeleteRule? || op.DeleteGroup?
    ensures Serve(Serve(st, op).0, op).0 == Serve(st, op).0 && AgainAnswer(st, op)
  {
    hide Net.Echo;
    var st' := Serve(st, op).0;
    if op.CreateGroup? && st' != st {
      assert st'.groups[st.next].name == op.groupName;
    }
    if op.AddRule? && st' != st {
      assert st'.groups[op.group].rules[st.next] == Net.Echo(op.address);
    }
  }

  /** The state after the server has applied the same request n times. */
  ghost function Repeat(st: State, op: Op, n: nat): State
  {
    if n == 0 then st else Serve(Repeat(st, op, n - 1), op).0
  }

  lemma {:induction false} RepeatIsOnce(st: State, op: Op, n: nat)
    requires !op.CreatePerm? && n > 0
    ensures Repeat(st, op, n) == Serve(st, op).0
  {
    if n == 1 {
      assert Repeat(st, op, 0) == st;
    } else {
      RepeatIsOnce(st, op, n - 1);
      ServeTwice(st, op);
    }
  }

  // ---- listings ----

  /** The collection as the server lists it, in creation order. */
  function Listing<T(!new)>(m: map<Uid, T>, next: Uid): (list: seq<(Uid, T)>)
    ensures forall e :: e in list <==> e.0 < next && e.0 in m && m[e.0] == e.1
    ensures forall i, j | 0 <= i < j < |list| :: list[i].0 < list[j].0
  {
    if next == 0 then []
    else Listing(m, next - 1) + (if next - 1 in m then [(next - 1, m[next - 1])] else [])
  }

  // ---- the channel and the client ----

  /** What happens to one attempt: delivered and answered; lost or shed before the server acts;
      applied with the reply lost; or turned away for good before the server acts. */
  datatype Fault = Deliver | LoseRequest(error: Error) | LoseReply(error: Error) | Deny(error: Error)

  /** Errors the client retries. */
  predicate Transient(e: Error)
  {
    e.Overloaded? || e.Hangup?
  }

  /** The request itself got no answer: the client was turned away, or retried all its attempts
      and the last one was lost. */
  predicate Unanswered(a: Answer)
  {
    a.Refused? && (Transient(a.error) || a.error.Denied?)
  }

  type Channel = f: nat -> Fault | forall t :: !f(t).Deliver? ==> if f(t).Deny? then f(t).error.Denied? else Transient(f(t).error)
    ghost witness (t: nat) => Deliver

  class Session {
    var st: State
    var clock: nat
    const channel: Channel
    const retries: nat

    constructor (st: State, channel: Channel, retries: nat)
      ensures this.st == st && this.clock == 0 && this.channel == channel && this.retries == retries
    {
      this.st, this.clock, this.channel, this.retries := st, 0, channel, retries;
    }

    // ---- when a request ends, and how ----

    /** An attempt that is not repeated. */
    ghost predicate Settles(t: nat)
    {
      channel(t).Deliver? || channel(t).Deny?
    }

    ghost predicate Reaches(t: nat)
    {
      channel(t).Deliver? || channel(t).LoseReply?
    }

    ghost function EndWithin(t: nat, n: nat): (end: nat)
      ensures t + (if n == 0 then 0 else 1) <= end <= t + n
      decreases n
    {
      if n == 0 then t else if Settles(t) then t + 1 else EndWithin(t + 1, n - 1)
    }

    /** The moment a request begun at t ends: after its first attempt that settles it, or after
        retries + 1 attempts. (A repeated attach goes on all the same.) */
    ghost function Ends(t: nat): (end: nat)
      ensures t < end <= t + retries + 1
    {
      EndWithin(t, retries + 1)
    }

    /** A request begun at t is answered. */
    ghost predicate AnsweredFrom(t: nat)
    {
      channel(Ends(t) - 1).Deliver?
    }

    lemma {:induction false} EndsAt(t: nat, end: nat, n: nat)
      requires t < end <= t + n && forall i | t <= i < end - 1 :: !Settles(i)
      requires Settles(end - 1) || end == t + n
      ensures EndWithin(t, n) == end
      decreases n
    {
      if end > t + 1 {
        EndsAt(t + 1, end, n - 1);
      }
    }

    lemma {:induction false} UnsettledBefore(t: nat, n: nat, i: nat)
      requires t <= i < EndWithin(t, n) - 1
      ensures !Settles(i)
      decreases n
    {
      if t < i {
        UnsettledBefore(t + 1, n - 1, i);
      }
    }

    /** From this moment no attempt is lost. */
    ghost predicate Reliable(from: nat)
    {
      forall t | t >= from :: channel(t).Deliver?
    }

    /** From this moment every request is answered. */
    ghost predicate Fair(from: nat)
    {
      forall t | t >= from :: AnsweredFrom(t)
    }

    lemma ReliableExactly(from: nat)
      ensures Reliable(from) <==> forall t | t >= from :: channel(t).Deliver?
    {
    }

    lemma ReliableAt(from: nat, t: nat)
      ensures Reliable(from) && from <= t ==> channel(t).Deliver? && Ends(t) == t + 1 && AnsweredFrom(t)
    {
    }

    // ---- several requests, one after the other ----

    /** A request begun at `from` and others right after it take the session to `until`. */
    ghost predicate Chain(from: nat, until: nat)
      decreases until - from
    {
      from == until || (from < until && Chain(Ends(from), until))
    }

    /** All of them are answered. */
    ghost predicate AllAnswered(from: nat, until: nat)
      decreases until - from
    {
      from < until ==> AnsweredFrom(from) && AllAnswered(Ends(from), until)
    }

    lemma {:induction false} ChainJoin(a: nat, b: nat, c: nat)
      requires Chain(a, b) && Chain(b, c)
      ensures Chain(a, c) && (AllAnswered(a, c) <==> AllAnswered(a, b) && AllAnswered(b, c))
      decreases b - a
    {
      hide Session.Ends, Session.AnsweredFrom;
      if a < b {
        ChainJoin(Ends(a), b, c);
      }
    }

    lemma ChainOne(t: nat)
      ensures Chain(t, t) && AllAnswered(t, t)
      ensures Chain(t, Ends(t)) && (AllAnswered(t, Ends(t)) <==> AnsweredFrom(t))
    {
    }

    lemma ChainStep(from: nat, t: nat)
      requires Chain(from, t)
      ensures Chain(from, Ends(t)) && (AllAnswered(from, Ends(t)) <==> AllAnswered(from, t) && AnsweredFrom(t))
    {
      ChainOne(t);
      ChainJoin(from, t, Ends(t));
    }

    lemma {:induction false} FairAnswersAll(from: nat, until: nat)
      ensures Fair(from) || Reliable(from) ==> AllAnswered(from, until)
      decreases until - from
    {
      ReliableAt(from, from);
      if from < until {
        FairAnswersAll(Ends(from), until);
      }
    }

    // ---- what the server sees of a request ----

    /** How many of n attempts from t on reach the server. */
    ghost function Seen(t: nat, n: nat): nat
    {
      if n == 0 then 0 else Seen(t, n - 1) + if Reaches(t + n - 1) then 1 else 0
    }

    /** Of n attempts from t on, the first that reaches the server. */
    ghost function FirstSeen(t: nat, n: nat): (r: Option<nat>)
      ensures r.Some? ==> t <= r.value < t + n && Reaches(r.value)
      ensures r.None? <==> Seen(t, n) == 0
    {
      if n == 0 then None
      else if FirstSeen(t, n - 1).Some? then FirstSeen(t, n - 1)
      else if Reaches(t + n - 1) then Some(t + n - 1) else None
    }

    /** No attempt of a request begun at t reaches the server. */
    ghost predicate Unseen(t: nat)
    {
      Seen(t, Ends(t) - t) == 0
    }

    /** Of a request begun at t, the first attempt that reaches the server is applied and its reply lost. */
    ghost predicate FirstReplyLost(t: nat)
    {
      FirstSeen(t, Ends(t) - t).Some? && channel(FirstSeen(t, Ends(t) - t).value).LoseReply?
    }

    /** The first attempt the server sees of a request is answered, and then it is the only one;
        or its reply is lost, and then an answer is to a later one. */
    lemma Decided(t: nat)
      ensures var n := Ends(t) - t;
        && (Seen(t, n) > 0 && !FirstReplyLost(t) ==> Seen(t, n) == 1 && AnsweredFrom(t))
        && (FirstReplyLost(t) ==> Seen(t, n) > 0 && (AnsweredFrom(t) ==> Seen(t, n) > 1))
        && (AnsweredFrom(t) ==> Seen(t, n) > 0)
    {
      var n := Ends(t) - t;
      if FirstSeen(t, n).Some? && FirstSeen(t, n).value < Ends(t) - 1 {
        UnsettledBefore(t, retries + 1, FirstSeen(t, n).value);
      }
    }

    // ---- the same in terms of single attempts ----

    /** A request goes on exactly over attempts that are lost, on either way, and retries + 1 of
        them at the most; it is answered exactly if the last of them is delivered. */
    lemma EndsExactly(t: nat, end: nat)
      ensures Ends(t) == end <==>
              && t < end <= t + retries + 1
              && (forall i | t <= i < end - 1 :: channel(i).LoseRequest? || channel(i).LoseReply?)
              && (end == t + retries + 1 || channel(end - 1).Deliver? || channel(end - 1).Deny?)
      ensures Ends(t) == end ==> (AnsweredFrom(t) <==> channel(end - 1).Deliver?)
    {
      hide Session.EndWithin;
      forall i | t <= i < Ends(t) - 1
        ensures channel(i).LoseRequest? || channel(i).LoseReply?
      {
        UnsettledBefore(t, retries + 1, i);
      }
      LastSettles(t, retries + 1);
      if t < end <= t + retries + 1 && (forall i | t <= i < end - 1 :: channel(i).LoseRequest? || channel(i).LoseReply?) &&
         (end == t + retries + 1 || channel(end - 1).Deliver? || channel(end - 1).Deny?) {
        EndsAt(t, end, retries + 1);
      }
    }

    lemma {:induction false} LastSettles(t: nat, n: nat)
      requires n > 0
      ensures EndWithin(t, n) == t + n || Settles(EndWithin(t, n) - 1)
      decreases n
    {
      if !Settles(t) && n > 1 {
        LastSettles(t + 1, n - 1);
      }
    }

    /** The first reply is lost exactly if an attempt that is carried out and not answered comes
        before all others but some that never arrived. */
    lemma FirstReplyLostExactly(t: nat)
      ensures FirstReplyLost(t) <==>
              exists k | t <= k < Ends(t) :: channel(k).LoseReply? && forall i | t <= i < k :: channel(i).LoseRequest?
    {
      var n := Ends(t) - t;
      hide Session.EndWithin, Session.FirstSeen;
      FirstSeenIsFirst(t, n);
      if FirstReplyLost(t) {
        var k := FirstSeen(t, n).value;
        forall i | t <= i < k
          ensures channel(i).LoseRequest?
        {
          UnsettledBefore(t, retries + 1, i);
          assert !Reaches(i);
        }
      }
      if k: nat :| t <= k < Ends(t) && channel(k).LoseReply? && forall i | t <= i < k :: channel(i).LoseRequest? {
        assert Reaches(k);
      }
    }

    lemma {:induction false} FirstSeenIsFirst(t: nat, n: nat)
      ensures FirstSeen(t, n).Some? ==> forall i | t <= i < FirstSeen(t, n).value :: !Reaches(i)
      ensures FirstSeen(t, n).None? ==> forall i | t <= i < t + n :: !Reaches(i)
    {
      if n > 0 {
        FirstSeenIsFirst(t, n - 1);
      }
    }

    /** One attempt at a write request; `acted` says whether the server saw it. */
    method Attempt(op: Op) returns (r: Answer, ghost acted: bool)
      modifies this`st, this`clock
      ensures clock == old(clock) + 1
      ensures st == if acted then Serve(old(st), op).0 else old(st)
      ensures acted <==> Reaches(old(clock))
      ensures channel(old(clock)).Deliver? <==> !Unanswered(r)
      ensures r == if channel(old(clock)).Deliver? then Serve(old(st), op).1 else Refused(channel(old(clock)).error)
      ensures WellFormed(old(st)) ==> WellFormed(st)
    {
      hide Serve, WellFormed;
      var fault := channel(clock);
      clock := clock + 1;
      ServeWellFormedIf(st, op);
      ServeAnswers(st, op);
      match fault {
        case Deliver =>
          var (st', answer) := Serve(st, op);
          st, r, acted := st', answer, true;
        case LoseRequest(error) =>
          r, acted := Refused(error), false;
        case LoseReply(error) =>
          st, r, acted := Serve(st, op).0, Refused(error), true;
        case Deny(error) =>
          r, acted := Refused(error), false;
      }
    }

    /** Where a request begun at t0 in state st0 stands after n attempts. */
    ghost predicate Underway(st0: State, op: Op, t0: nat, n: nat, st: State, r: Answer, served: nat)
    {
      && served == Seen(t0, n) && st == Repeat(st0, op, served)
      && (!Unanswered(r) ==> served > 0 && r == Serve(Repeat(st0, op, served - 1), op).1)
      && (WellFormed(st0) ==> WellFormed(st))
      && (Reliable(t0) && n > 0 ==> st == Serve(st0, op).0 && r == Serve(st0, op).1)
      && (n > 0 ==> (channel(t0 + n - 1).Deliver? <==> !Unanswered(r)))
      && (Unanswered(r) && n > 0 ==> r == Refused(channel(t0 + n - 1).error))
      && (!op.Attach? ==> forall i | t0 <= i < t0 + n - 1 :: !Settles(i))
    }

    lemma UnderwayStart(st0: State, op: Op, t0: nat)
      ensures Underway(st0, op, t0, 0, st0, Refused(Hangup), 0)
    {
    }

    /** An answer that is followed by another attempt: a lost one, or that of a repeated attach. */
    predicate Retried(r: Answer)
    {
      r == Refused(AlreadyPresent) || (r.Refused? && Transient(r.error))
    }

    lemma NotSettled(t0: nat, n: nat, r: Answer)
      ensures n > 0 && !channel(t0 + n - 1).Deliver? && r == Refused(channel(t0 + n - 1).error) && Retried(r) ==> !Settles(t0 + n - 1)
    {
    }

    lemma UnderwayStep(st0: State, op: Op, t0: nat, n: nat, st: State, r: Answer, served: nat, st': State, r': Answer, acted: bool)
      requires Underway(st0, op, t0, n, st, r, served) && (n > 0 ==> Retried(r))
      requires st' == if acted then Serve(st, op).0 else st
      requires acted <==> Reaches(t0 + n)
      requires channel(t0 + n).Deliver? <==> !Unanswered(r')
      requires r' == if channel(t0 + n).Deliver? then Serve(st, op).1 else Refused(channel(t0 + n).error)
      requires WellFormed(st) ==> WellFormed(st')
      ensures Underway(st0, op, t0, n + 1, st', r', if acted then served + 1 else served)
    {
      NotSettled(t0, n, r);
      hide Serve, WellFormed, Repeat, Session.Seen, Session.Reliable, Session.Ends, Session.Settles;
      RepeatStep(st0, op, served);
      ServeAnswers(st0, op);
      ServeAnswers(st, op);
      NoneSeen(t0);
      SeenStep(t0, n);
      ReliableAt(t0, t0 + n);
      RepeatStep(st0, op, 0);
      if served > 0 {
        ServeAnswers(Repeat(st0, op, served - 1), op);
      }
    }

    /** The retry loop: sends until settled, at most retries + 1 times. A reply of the 5xx class
        counts as a failed attempt. `served` is how often the server acted. */
    method Send(op: Op) returns (r: Answer, ghost served: nat)
      modifies this
      ensures old(clock) < clock <= old(clock) + retries + 1
      ensures Retried(r) ==> clock == old(clock) + retries + 1
      ensures Underway(old(st), op, old(clock), clock - old(clock), st, r, served)
    {
      hide Serve, WellFormed, Session.Underway, Session.Reaches;
      var attempt := 0;
      served := 0;
      r := Refused(Hangup);
      UnderwayStart(st, op, clock);
      while attempt <= retries
        invariant attempt <= retries + 1
        invariant clock == old(clock) + attempt
        invariant Underway(old(st), op, old(clock), attempt, st, r, served)
        invariant Retried(r)
      {
        ghost var st1, r1 := st, r;
        ghost var acted;
        r, acted := Attempt(op);
        UnderwayStep(old(st), op, old(clock), attempt, st1, r1, served, st, r, acted);
        attempt := attempt + 1;
        served := if acted then served + 1 else served;
        if !Retried(r) {
          break;
        }
      }
    }

    lemma NoneSeen(t: nat)
      ensures Seen(t, 0) == 0
    {
    }

    lemma SeenStep(t: nat, n: nat)
      ensures Seen(t, n + 1) == Seen(t, n) + if Reaches(t + n) then 1 else 0
    {
    }

    /** A write request. When it ends, whether it is answered, how often the server acts on it and
        whether the answer is to its first application or to a repetition depend on the channel alone. */
    method Call(op: Op) returns (r: Answer, ghost served: nat)
      modifies this
      ensures clock > old(clock)
      ensures served <= retries + 1 && st == Repeat(old(st), op, served)
      ensures !Unanswered(r) ==> served > 0 && r == Serve(Repeat(old(st), op, served - 1), op).1
      ensures Unanswered(r) ==> !channel(clock - 1).Deliver? && r == Refused(channel(clock - 1).error)
      ensures WellFormed(old(st)) ==> WellFormed(st)
      ensures !op.CreatePerm? ==>
        && (st == old(st) || st == Serve(old(st), op).0)
        && (!Unanswered(r) ==>
              && st == Serve(old(st), op).0
              && (r == Serve(old(st), op).1 || r == Serve(Serve(old(st), op).0, op).1))
      ensures Reliable(old(clock)) ==> st == Serve(old(st), op).0 && r == Serve(old(st), op).1 && !Unanswered(r)
      ensures !op.Attach? ==>
        && clock == Ends(old(clock)) && served == Seen(old(clock), Ends(old(clock)) - old(clock))
        && (Unanswered(r) <==> !AnsweredFrom(old(clock)))
        && (served > 0 && !FirstReplyLost(old(clock)) ==> served == 1 && r == Serve(old(st), op).1)
        && (FirstReplyLost(old(clock)) ==> served > 0 && (Unanswered(r) || served > 1))
        && (Unseen(old(clock)) ==> Unanswered(r) && st == old(st))
    {
      hide Serve, WellFormed, Repeat, Session.Seen, Session.Reliable, Session.FirstReplyLost;
      RepeatStep(st, op, 0);
      r, served := Send(op);
      SeenAtMost(old(clock), clock - old(clock));
      Settle(old(st), op, served);
      ServeAnswers(old(st), op);
      if !op.Attach? {
        UnderwayEnds(old(st), op, old(clock), clock - old(clock), st, r, served);
        hide Session.Ends, Session.AnsweredFrom;
        Decided(old(clock));
      }
    }

    /** A request whose last answer is not followed by another attempt has ended. */
    lemma UnderwayEnds(st0: State, op: Op, t0: nat, n: nat, st: State, r: Answer, served: nat)
      requires Underway(st0, op, t0, n, st, r, served) && !op.Attach?
      requires 0 < n <= retries + 1 && (Retried(r) ==> n == retries + 1)
      ensures t0 + n == Ends(t0) && (Unanswered(r) <==> !AnsweredFrom(t0))
    {
      hide Serve, WellFormed, Repeat, Session.Seen, Session.Reliable;
      if served > 0 {
        ServeAnswers(Repeat(st0, op, served - 1), op);
      }
      EndsAt(t0, t0 + n, retries + 1);
    }

    lemma {:induction false} SeenAtMost(t: nat, n: nat)
      ensures Seen(t, n) <= n
    {
      if n > 0 {
        SeenAtMost(t, n - 1);
      }
    }

    /** A read request, retried alike; None once answered. */
    method Get() returns (r: Option<Error>)
      modifies this`clock
      ensures clock == Ends(old(clock))
      ensures r == if AnsweredFrom(old(clock)) then None else Some(channel(clock - 1).error)
      ensures r.Some? ==> Unanswered(Refused(r.value))
      ensures Reliable(old(clock)) ==> r.None?
    {
      ReliableAt(clock, clock);
      var attempt := 0;
      r := Some(Hangup);
      while attempt <= retries
        invariant attempt <= retries + 1
        invariant clock == old(clock) + attempt
        invariant attempt > 0 ==> !channel(clock - 1).Deliver? && r == Some(channel(clock - 1).error)
        invariant forall i | old(clock) <= i < clock :: !Settles(i)
      {
        var fault := channel(clock);
        clock, attempt := clock + 1, attempt + 1;
        if fault.Deliver? || fault.Deny? {
          EndsAt(old(clock), clock, retries + 1);
          return if fault.Deliver? then None else Some(fault.error);
        }
        r := Some(fault.error);
      }
      EndsAt(old(clock), clock, retries + 1);
    }
  }

  lemma RepeatStep(st: State, op: Op, n: nat)
    ensures Repeat(st, op, 0) == st
    ensures Repeat(st, op, n + 1) == Serve(Repeat(st, op, n), op).0
  {
  }

  lemma ServeAnswers(st: State, op: Op)
    ensures !Unanswered(Serve(st, op).1)
    ensures Serve(st, op).1 == Refused(AlreadyPresent) ==> op.Attach? && Serve(st, op).0 == st
  {
  }

  lemma ServeWellFormedIf(st: State, op: Op)
    ensures WellFormed(st) ==> WellFormed(Serve(st, op).0)
  {
    if WellFormed(st) {
      ServeWellFormed(st, op);
    }
  }

  lemma Settle(st: State, op: Op, served: nat)
    ensures !op.CreatePerm? ==>
      && Repeat(st, op, served) == (if served == 0 then st else Serve(st, op).0)
      && (served > 1 ==> Repeat(st, op, served - 1) == Serve(st, op).0)
  {
    if !op.CreatePerm? {
      if served > 0 {
        RepeatIsOnce(st, op, served);
      }
      if served > 1 {
        RepeatIsOnce(st, op, served - 1);
      }
    }
  }
}
