/** One authenticated REST request: token refresh, back-off and login lockouts. */
module ApiRequest {
  import opened Results
  import opened Net

  /** One HTTP exchange. Of a reply's text only what the client reads off it is kept: whether it
      speaks of exhausted capacity, of a lockout, and for how many seconds. */
  datatype Exchange =
    | Reply(code: nat, capacity: bool, lockedOut: bool, lockoutSeconds: Option<nat>,
            token: string, refreshToken: Option<string>)
    | Disconnected

  /** What a request raises. */
  datatype Failure = Api(code: nat) | OutOfCapacity | ConnectionLost

  /** How an attempt ends: with a response, for good, or to be tried again. */
  datatype Verdict = Success(code: nat) | Definite(failure: Failure) | Again(failure: Failure)

  /** _raise_for_status */
  function ErrorOf(code: nat, capacity: bool): Option<Failure>
  {
    if code < 400 then None
    else if code == 400 && capacity then Some(OutOfCapacity)
    else Some(Api(code))
  }

  /** The except clauses of _request. */
  function Classify(f: Failure): Verdict
  {
    match f
    case Api(code) => if code == 429 || code >= 500 then Again(f) else Definite(f)
    case OutOfCapacity => Definite(f)
    case ConnectionLost => Again(f)
  }

  function VerdictOf(e: Exchange): Verdict
  {
    match e
    case Disconnected => Again(ConnectionLost)
    case Reply(code, capacity, _, _, _, _) =>
      match ErrorOf(code, capacity)
      case None => Success(code)
      case Some(f) => Classify(f)
  }

  /** How long a lockout reply makes the client sleep. */
  function LockoutSleep(seconds: Option<nat>): nat
  {
    var duration := if seconds.None? || seconds.value == 0 then 125 else seconds.value;
    if duration + 5 < 150 then duration + 5 else 150
  }

  /** A reply that renews the tokens. */
  predicate Renews(e: Exchange)
  {
    e.Reply? && e.code == 200
  }

  /** A token the client holds and that is not empty. */
  predicate CanRefresh(token: Option<string>)
  {
    token.Some? && token.value != ""
  }

  predicate Unauthorized(e: Exchange)
  {
    e.Reply? && e.code == 401
  }

  // ---- which exchanges an attempt takes, given those there are on the wire ----

  /** After a 401 at `start`: the refresh, if there is a token for it, renews the tokens. */
  function Renewed(wire: nat -> Exchange, start: nat, refresh: Option<string>): bool
  {
    CanRefresh(refresh) && Renews(wire(start + 1))
  }

  /** Otherwise the login comes next. */
  function LoginAt(start: nat, refresh: Option<string>): nat
  {
    if CanRefresh(refresh) then start + 2 else start + 1
  }

  /** Whether the request is sent again. */
  function Resent(wire: nat -> Exchange, start: nat, refresh: Option<string>): bool
  {
    Unauthorized(wire(start)) && (Renewed(wire, start, refresh) || VerdictOf(wire(LoginAt(start, refresh))).Success?)
  }

  /** The last exchange of an attempt begun at `start`. */
  function AttemptEnd(wire: nat -> Exchange, start: nat, refresh: Option<string>): (end: nat)
    ensures end >= start && (end > start ==> Unauthorized(wire(start)))
  {
    if !Unauthorized(wire(start)) then start
    else if Renewed(wire, start, refresh) then start + 2
    else LoginAt(start, refresh) + if Resent(wire, start, refresh) then 1 else 0
  }

  /** The refresh token held after it. */
  function RefreshAfter(wire: nat -> Exchange, start: nat, refresh: Option<string>): Option<string>
  {
    if !Resent(wire, start, refresh) then refresh
    else if !Renewed(wire, start, refresh) then
      (if wire(LoginAt(start, refresh)).Reply? then wire(LoginAt(start, refresh)).refreshToken else refresh)
    else if wire(start + 1).refreshToken.Some? then wire(start + 1).refreshToken
    else refresh
  }

  /** The last exchanges of the attempts of a request begun at `start`, at most n of them: another
      one only after one that may be repeated. */
  function AttemptEnds(wire: nat -> Exchange, start: nat, refresh: Option<string>, n: nat): seq<nat>
    decreases n
  {
    if n == 0 then []
    else
      var end := AttemptEnd(wire, start, refresh);
      [end] + if VerdictOf(wire(end)).Again? then AttemptEnds(wire, end + 1, RefreshAfter(wire, start, refresh), n - 1) else []
  }

  /** How many attempts a request begun at `start` takes, and its last exchange. */
  datatype Course = Course(attempts: nat, last: nat)

  function CourseOf(wire: nat -> Exchange, start: nat, refresh: Option<string>, n: nat): Course
    requires n > 0
    decreases n
  {
    var end := AttemptEnd(wire, start, refresh);
    if n == 1 || !VerdictOf(wire(end)).Again? then Course(1, end)
    else
      var rest := CourseOf(wire, end + 1, RefreshAfter(wire, start, refresh), n - 1);
      Course(rest.attempts + 1, rest.last)
  }

  lemma {:induction false} CourseOfEnds(wire: nat -> Exchange, start: nat, refresh: Option<string>, n: nat)
    requires n > 0
    ensures var ends := AttemptEnds(wire, start, refresh, n);
      ends != [] && CourseOf(wire, start, refresh, n) == Course(|ends|, ends[|ends| - 1])
    decreases n
  {
    hide AttemptEnd, RefreshAfter, VerdictOf;
    var end := AttemptEnd(wire, start, refresh);
    if n == 1 {
      assert AttemptEnds(wire, end + 1, RefreshAfter(wire, start, refresh), 0) == [];
    } else if VerdictOf(wire(end)).Again? {
      CourseOfEnds(wire, end + 1, RefreshAfter(wire, start, refresh), n - 1);
    }
  }

  /** The last exchange of an attempt, in codes: the request alone unless it met a 401; then the
      request again behind a renewal with 200 or a login below 400, or else the failed login. */
  lemma AttemptInCodes(wire: nat -> Exchange, start: nat, refresh: Option<string>)
    ensures var login := if refresh.Some? && refresh.value != "" then start + 2 else start + 1;
      AttemptEnd(wire, start, refresh) ==
        if wire(start).Disconnected? || wire(start).code != 401 then start
        else if login == start + 2 && wire(start + 1).Reply? && wire(start + 1).code == 200 then start + 2
        else if wire(login).Reply? && wire(login).code < 400 then login + 1
        else login
  {
  }

  /** The refresh token held after an attempt, in codes: a renewal that brings none keeps the old
      one, and a login does not. */
  lemma RefreshInCodes(wire: nat -> Exchange, start: nat, refresh: Option<string>)
    ensures var login := if refresh.Some? && refresh.value != "" then start + 2 else start + 1;
      RefreshAfter(wire, start, refresh) ==
        if wire(start).Disconnected? || wire(start).code != 401 then refresh
        else if login == start + 2 && wire(start + 1).Reply? && wire(start + 1).code == 200 then
          (if wire(start + 1).refreshToken.Some? then wire(start + 1).refreshToken else refresh)
        else if wire(login).Reply? && wire(login).code < 400 then wire(login).refreshToken
        else refresh
  {
  }

  /** Where the attempt with number i of a request begins. */
  function Begun(start: nat, ends: seq<nat>, i: nat): nat
    requires i < |ends|
  {
    if i == 0 then start else ends[i - 1] + 1
  }

  /** The whole request, in codes. An attempt is followed by another one only if it ended with no
      reply, a 429 or a code of 500 or more, and then always while fewer than n were made; an
      attempt is a single exchange exactly if that did not meet a 401. */
  lemma RequestInCodes(wire: nat -> Exchange, start: nat, refresh: Option<string>, n: nat)
    requires n > 0
    ensures var ends := AttemptEnds(wire, start, refresh, n);
      && 0 < |ends| <= n && CourseOf(wire, start, refresh, n) == Course(|ends|, ends[|ends| - 1])
      && (forall i | 0 <= i < |ends| - 1 ::
            wire(ends[i]).Disconnected? || wire(ends[i]).code == 429 || wire(ends[i]).code >= 500)
      && (|ends| < n ==>
            var e := wire(ends[|ends| - 1]); e.Reply? && e.code != 429 && e.code < 500)
      && (forall i | 0 <= i < |ends| ::
            var e := wire(Begun(start, ends, i));
            && Begun(start, ends, i) <= ends[i] <= Begun(start, ends, i) + 3
            && (ends[i] == Begun(start, ends, i) <==> e.Disconnected? || e.code != 401))
  {
    OnlyRepeatable(wire, start, refresh, n);
    CourseOfEnds(wire, start, refresh, n);
    hide AttemptEnds, Begun, CourseOf;
  }

  /** An attempt is a single exchange exactly if that did not meet a 401, and else up to four. */
  predicate OneAttempt(wire: nat -> Exchange, begun: nat, end: nat)
  {
    begun <= end <= begun + 3 && (begun < end <==> Unauthorized(wire(begun)))
  }

  /** Attempts one after the other from `start` on, each but the last to be repeated. */
  ghost predicate Attempts(wire: nat -> Exchange, start: nat, ends: seq<nat>)
  {
    && (forall i | 0 <= i < |ends| - 1 :: VerdictOf(wire(ends[i])).Again?)
    && (forall i | 0 <= i < |ends| :: OneAttempt(wire, Begun(start, ends, i), ends[i]))
  }

  lemma OneAttemptMore(wire: nat -> Exchange, start: nat, end: nat, rest: seq<nat>)
    requires Attempts(wire, end + 1, rest) && (rest != [] ==> VerdictOf(wire(end)).Again?)
    requires OneAttempt(wire, start, end)
    ensures Attempts(wire, start, [end] + rest)
  {
    hide VerdictOf, OneAttempt;
    var ends := [end] + rest;
    forall i | 0 <= i < |ends|
      ensures OneAttempt(wire, Begun(start, ends, i), ends[i])
    {
      if i > 0 {
        assert Begun(start, ends, i) == Begun(end + 1, rest, i - 1) && ends[i] == rest[i - 1];
      }
    }
    forall i | 0 <= i < |ends| - 1
      ensures VerdictOf(wire(ends[i])).Again?
    {
      if i > 0 {
        assert ends[i] == rest[i - 1];
      }
    }
  }

  /** No attempt follows one that met a definite error or succeeded, and there are n attempts
      unless the last one settled it. */
  lemma {:induction false} OnlyRepeatable(wire: nat -> Exchange, start: nat, refresh: Option<string>, n: nat)
    requires n > 0
    ensures var ends := AttemptEnds(wire, start, refresh, n);
      && 0 < |ends| <= n && Attempts(wire, start, ends)
      && (|ends| < n ==> !VerdictOf(wire(ends[|ends| - 1])).Again?)
    decreases n
  {
    hide AttemptEnd, RefreshAfter, VerdictOf, Attempts, OneAttempt;
    var end := AttemptEnd(wire, start, refresh);
    EndOfAttempt(wire, start, refresh);
    var rest := if VerdictOf(wire(end)).Again? then AttemptEnds(wire, end + 1, RefreshAfter(wire, start, refresh), n - 1) else [];
    if VerdictOf(wire(end)).Again? && n > 1 {
      OnlyRepeatable(wire, end + 1, RefreshAfter(wire, start, refresh), n - 1);
    } else {
      assert rest == [];
      NoAttempts(wire, end + 1);
    }
    OneAttemptMore(wire, start, end, rest);
  }

  lemma NoAttempts(wire: nat -> Exchange, start: nat)
    ensures Attempts(wire, start, [])
  {
  }

  lemma EndOfAttempt(wire: nat -> Exchange, start: nat, refresh: Option<string>)
    ensures OneAttempt(wire, start, AttemptEnd(wire, start, refresh))
  {
  }

  class Client {
    const wire: nat -> Exchange
    const retries: nat
    var exchanges: nat
    var access: Option<string>
    var refresh: Option<string>
    /** API requests sent, seconds slept between attempts, lockouts met and seconds slept in them. */
    var requests: nat
    var backoff: nat
    var lockouts: nat
    var lockoutSleep: nat

    constructor (wire: nat -> Exchange, retries: nat)
      ensures this.wire == wire && this.retries == retries
      ensures exchanges == requests == backoff == lockouts == lockoutSleep == 0
    {
      this.wire, this.retries := wire, retries;
      this.access, this.refresh := None, None;
      this.exchanges, this.requests, this.backoff, this.lockouts, this.lockoutSleep := 0, 0, 0, 0, 0;
    }

    method Exchange() returns (e: Exchange)
      modifies this`exchanges
      ensures exchanges == old(exchanges) + 1 && e == wire(old(exchanges))
    {
      e := wire(exchanges);
      exchanges := exchanges + 1;
    }

    /** _do_login: backs off through a lockout before failing. */
    method DoLogin() returns (r: Option<Failure>)
      modifies this`exchanges, this`access, this`refresh, this`lockouts, this`lockoutSleep
      ensures exchanges == old(exchanges) + 1
      ensures var e := wire(old(exchanges));
        r == if e.Disconnected? then Some(ConnectionLost)
             else if e.code < 400 then None
             else if e.code == 400 && e.capacity then Some(OutOfCapacity)
             else Some(Api(e.code))
      ensures r.None? ==> access == Some(wire(old(exchanges)).token) && refresh == wire(old(exchanges)).refreshToken
      ensures r.Some? ==> access == old(access) && refresh == old(refresh)
      // A lockout is slept through, five seconds longer than it says, but at most 150 of them.
      ensures var e := wire(old(exchanges));
        var locked := e.Reply? && e.code == 403 && e.lockedOut;
        && lockouts == old(lockouts) + (if locked then 1 else 0)
        && lockoutSleep == old(lockoutSleep) +
             if !locked then 0
             else if e.lockoutSeconds.None? || e.lockoutSeconds.value == 0 then 130
             else if e.lockoutSeconds.value < 145 then e.lockoutSeconds.value + 5
             else 150
    {
      var e := Exchange();
      if e.Disconnected? {
        return Some(ConnectionLost);
      }
      if e.code == 403 && e.lockedOut {
        lockouts := lockouts + 1;
        lockoutSleep := lockoutSleep + LockoutSleep(e.lockoutSeconds);
        return Some(Api(403));
      }
      r := ErrorOf(e.code, e.capacity);
      if r.None? {
        access, refresh := Some(e.token), e.refreshToken;
      }
    }

    /** _refresh_or_login: any trouble with the refresh falls back to a full login. */
    method RefreshOrLogin() returns (r: Option<Failure>)
      modifies this`exchanges, this`access, this`refresh, this`lockouts, this`lockoutSleep
      ensures exchanges == old(exchanges) + if CanRefresh(old(refresh)) && !Renews(wire(old(exchanges))) then 2 else 1
      ensures r.None? ==> VerdictOf(wire(exchanges - 1)).Success? && wire(exchanges - 1).Reply? && access == Some(wire(exchanges - 1).token)
      // A renewal without a new refresh token keeps the old one; a login does not.
      ensures r.None? ==> refresh == if wire(exchanges - 1).refreshToken.None? && CanRefresh(old(refresh)) && exchanges == old(exchanges) + 1
                                     then old(refresh) else wire(exchanges - 1).refreshToken
      ensures r.Some? ==> VerdictOf(wire(exchanges - 1)) == Classify(r.value) && access == old(access) && refresh == old(refresh)
      ensures || (lockouts == old(lockouts) && lockoutSleep == old(lockoutSleep))
              || (lockouts == old(lockouts) + 1 && lockoutSleep <= old(lockoutSleep) + 150 && r == Some(Api(403)))
    {
      if CanRefresh(refresh) {
        var e := Exchange();
        if Renews(e) {
          access := Some(e.token);
          refresh := if e.refreshToken.Some? then e.refreshToken else refresh;
          return None;
        }
      }
      r := DoLogin();
    }

    /** One turn of the loop: the request, resent once after a 401 and a token refresh. */
    method Attempt() returns (v: Verdict)
      modifies this`exchanges, this`access, this`refresh, this`lockouts, this`lockoutSleep, this`requests
      ensures exchanges == AttemptEnd(wire, old(exchanges), old(refresh)) + 1 && refresh == RefreshAfter(wire, old(exchanges), old(refresh))
      ensures v == VerdictOf(wire(exchanges - 1)) && (v.Success? ==> v.code < 400)
      // Sent twice only after a 401, and then with the token just obtained.
      ensures requests == old(requests) + if Resent(wire, old(exchanges), old(refresh)) then 2 else 1
      ensures requests == old(requests) + 2 ==> exchanges >= 2 && wire(exchanges - 2).Reply? && access == Some(wire(exchanges - 2).token)
      ensures || (lockouts == old(lockouts) && lockoutSleep == old(lockoutSleep))
              || (lockouts == old(lockouts) + 1 && lockoutSleep <= old(lockoutSleep) + 150 && v == Definite(Api(403)))
    {
      requests := requests + 1;
      var e := Exchange();
      if Unauthorized(e) {
        var failed := RefreshOrLogin();
        if failed.Some? {
          return Classify(failed.value);
        }
        requests := requests + 1;
        e := Exchange();
      }
      return VerdictOf(e);
    }

    /** _request: the attempts the wire asks for, at most retries + 1 of them. */
    method Request() returns (r: Outcome<nat, Failure>)
      modifies this`exchanges, this`access, this`refresh, this`lockouts, this`lockoutSleep, this`requests, this`backoff
      ensures var course := CourseOf(wire, old(exchanges), old(refresh), retries + 1);
        && 0 < course.attempts <= retries + 1
        && exchanges == course.last + 1
        && old(requests) + course.attempts <= requests <= old(requests) + 2 * course.attempts
        && backoff == old(backoff) + Pow2(course.attempts - 1) - 1
      // The last exchange decides.
      ensures exchanges > 0 && var e := wire(exchanges - 1);
        r == if e.Disconnected? then Raised(ConnectionLost)
             else if e.code < 400 then Ok(e.code)
             else if e.code == 400 && e.capacity then Raised(OutOfCapacity)
             else Raised(Api(e.code))
      ensures lockouts <= old(lockouts) + 1 && lockoutSleep <= old(lockoutSleep) + 150 * (lockouts - old(lockouts))
      ensures lockouts > old(lockouts) ==> r == Raised(Api(403))
      ensures backoff - old(backoff) + lockoutSleep - old(lockoutSleep) <= Pow2(retries) - 1 + 150
    {
      hide VerdictOf, AttemptEnd, CourseOf, RefreshAfter, Resent;
      var delay := 1;
      var attempt := 0;
      r := Raised(ConnectionLost);
      ghost var course := CourseOf(wire, exchanges, refresh, retries + 1);
      while attempt <= retries
        invariant attempt <= retries + 1
        invariant if attempt == retries + 1 then course.attempts == attempt && course.last + 1 == exchanges else
          var rest := CourseOf(wire, exchanges, refresh, retries + 1 - attempt); course == Course(rest.attempts + attempt, rest.last)
        invariant attempt > 0 ==>
          exchanges > 0 && VerdictOf(wire(exchanges - 1)).Again? && Tells(wire(exchanges - 1), r)
        invariant old(requests) + attempt <= requests <= old(requests) + 2 * attempt
        invariant attempt <= retries ==> delay == Pow2(attempt) && backoff == old(backoff) + Pow2(attempt) - 1
        invariant attempt == retries + 1 ==> backoff == old(backoff) + Pow2(retries) - 1
        invariant lockouts == old(lockouts) && lockoutSleep == old(lockoutSleep)
      {
        CourseStep(wire, exchanges, refresh, retries + 1 - attempt);
        var v := Attempt();
        VerdictTells(wire(exchanges - 1));
        attempt := attempt + 1;
        Pow2Monotone(attempt - 1, retries);
        match v {
          case Success(code) =>
            return Ok(code);
          case Definite(f) =>
            return Raised(f);
          case Again(f) =>
            r := Raised(f);
        }
        if attempt <= retries {
          backoff := backoff + delay;
          delay := 2 * delay;
        }
      }
    }
  }

  /** What the caller gets of the last exchange. */
  predicate Tells(e: Exchange, r: Outcome<nat, Failure>)
  {
    r == if e.Disconnected? then Raised(ConnectionLost)
         else if e.code < 400 then Ok(e.code)
         else if e.code == 400 && e.capacity then Raised(OutOfCapacity)
         else Raised(Api(e.code))
  }

  lemma VerdictTells(e: Exchange)
    ensures match VerdictOf(e) {
              case Success(code) => Tells(e, Ok(code))
              case Definite(f) => Tells(e, Raised(f))
              case Again(f) => Tells(e, Raised(f))
            }
  {
  }

  lemma CourseStep(wire: nat -> Exchange, start: nat, refresh: Option<string>, n: nat)
    requires n > 0
    ensures var end := AttemptEnd(wire, start, refresh);
      CourseOf(wire, start, refresh, n) ==
        if n == 1 || !VerdictOf(wire(end)).Again? then Course(1, end)
        else var rest := CourseOf(wire, end + 1, RefreshAfter(wire, start, refresh), n - 1); Course(rest.attempts + 1, rest.last)
  {
  }

  lemma {:induction false} Pow2Monotone(a: nat, b: nat)
    requires a <= b
    ensures Pow2(a) <= Pow2(b)
  {
    if a < b {
      Pow2Monotone(a, b - 1);
    }
  }
}
