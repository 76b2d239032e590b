/** Administrator login with a sliding window of failures for each source. Calls are sequential, and
the clock never runs backwards. */
module LoginLimiter {
  import opened Wrappers

  type Times = seq<real>

  predicate Ordered(ts: Times) {
    forall i, j :: 0 <= i < j < |ts| ==> ts[i] <= ts[j]
  }

  /** Rate bound: any failure and the `max`-th one after it are a whole window apart. */
  ghost predicate Spaced(ts: Times, max: nat, window: real) {
    forall i: nat :: i + max < |ts| ==> ts[i] + window <= ts[i + max]
  }

  /** The source is blocked at `now`: its `max`-th last failure is younger than the window. */
  predicate Blocked(ts: Times, max: nat, window: real, now: real)
    requires max >= 1
  {
    |ts| >= max && ts[|ts| - max] > now - window
  }

  class LoginAttemptLimiter {
    const maxFailures: nat
    const windowSeconds: real
    var failures: map<string, Times>
    ghost var recorded: map<string, Times>  // all failures since the source was last reset
    ghost var lastSeen: real  // latest reading of the clock

    /** Non-positive parameters raise. */
    static method Make(maxFailures: int, windowSeconds: real) returns (r: Option<LoginAttemptLimiter>)
      ensures r.Some? <==> maxFailures >= 1 && windowSeconds > 0.0
      ensures r.Some? ==> fresh(r.value) && r.value.Valid() && r.value.recorded == map[]
      ensures r.Some? ==> r.value.maxFailures == maxFailures && r.value.windowSeconds == windowSeconds
    {
      if maxFailures < 1 || windowSeconds <= 0.0 {
        return None;
      }
      var limiter := new LoginAttemptLimiter(maxFailures, windowSeconds);
      return Some(limiter);
    }

    constructor (maxFailures: nat, windowSeconds: real)
      requires maxFailures >= 1 && windowSeconds > 0.0
      ensures Valid() && recorded == map[] && this.maxFailures == maxFailures && this.windowSeconds == windowSeconds
    {
      this.maxFailures, this.windowSeconds := maxFailures, windowSeconds;
      failures, recorded, lastSeen := map[], map[], 0.0;
    }

    function Active(source: string): Times
      reads this`failures
    {
      if source in failures then failures[source] else []
    }

    ghost function Recorded(source: string): Times
      reads this`recorded
    {
      if source in recorded then recorded[source] else []
    }

    ghost predicate Tracks(source: string)
      reads this
    {
      IsTail(Recorded(source), Active(source), lastSeen, windowSeconds)
    }

    ghost predicate Valid()
      reads this
    {
      maxFailures >= 1 && windowSeconds > 0.0 && forall s :: Tracks(s)
    }

    /** Drop what the window has left behind; a source without failures is forgotten. */
    method ActiveFailures(source: string, now: real) returns (active: Times)
      requires Valid() && lastSeen <= now
      modifies this`failures, this`lastSeen
      ensures Valid() && lastSeen == now
      ensures active == Active(source) && forall s :: s != source ==> Active(s) == old(Active(s))
      ensures forall i :: 0 <= i < |active| ==> active[i] > now - windowSeconds
    {
      hide IsTail;
      active := Active(source);
      assert Tracks(source);
      Later(Recorded(source), active, lastSeen, now, windowSeconds);
      while active != [] && active[0] <= now - windowSeconds
        invariant failures == old(failures) && lastSeen == old(lastSeen)
        invariant IsTail(Recorded(source), active, now, windowSeconds)
      {
        OneDropped(Recorded(source), active, now, windowSeconds);
        active := active[1..];
      }
      RestIsYoung(Recorded(source), active, now, windowSeconds);
      label before:
      failures := if active == [] then failures - {source} else failures[source := active];
      lastSeen := now;
      forall s ensures Tracks(s) {
        assert old@before(Tracks(s));
        Later(Recorded(s), old@before(Active(s)), old@before(lastSeen), now, windowSeconds);
      }
    }

    method AllowsAttempt(source: string, now: real) returns (allowed: bool)
      requires Valid() && lastSeen <= now
      modifies this`failures, this`lastSeen
      ensures Valid() && lastSeen == now
      ensures allowed <==> !Blocked(Recorded(source), maxFailures, windowSeconds, now)
    {
      var active := ActiveFailures(source, now);
      assert Tracks(source);
      CountsRecent(Recorded(source), active, maxFailures, windowSeconds, now);
      return |active| < maxFailures;
    }

    method RecordFailure(source: string, now: real)
      requires Valid() && lastSeen <= now
      modifies this`failures, this`recorded, this`lastSeen
      ensures Valid() && lastSeen == now
      ensures recorded == old(recorded)[source := old(Recorded(source)) + [now]]
    {
      hide IsTail;
      var active := ActiveFailures(source, now);
      ghost var rec := Recorded(source);
      assert Tracks(source);
      OneAppended(rec, active, now, windowSeconds);
      label before:
      failures := failures[source := active + [now]];
      recorded := recorded[source := rec + [now]];
      forall s ensures Tracks(s) {
        assert old@before(Tracks(s));
      }
    }

    method Reset(source: string)
      requires Valid()
      modifies this`failures, this`recorded
      ensures Valid() && recorded == old(recorded) - {source}
    {
      failures := failures - {source};
      recorded := recorded - {source};
      forall s ensures Tracks(s) {
        assert old(Tracks(s));
      }
    }
  }

  /** What is kept for a source is the tail of what was recorded; the rest is too old to matter. */
  ghost predicate IsTail(rec: Times, act: Times, seen: real, window: real) {
    && Ordered(rec) && (forall i :: 0 <= i < |rec| ==> rec[i] <= seen)
    && |act| <= |rec| && act == rec[|rec| - |act|..]
    && (forall i :: 0 <= i < |rec| - |act| ==> rec[i] <= seen - window)
  }

  lemma Later(rec: Times, act: Times, seen: real, now: real, window: real)
    requires IsTail(rec, act, seen, window) && seen <= now
    ensures IsTail(rec, act, now, window)
  {
  }

  lemma OneDropped(rec: Times, act: Times, now: real, window: real)
    requires IsTail(rec, act, now, window) && act != [] && act[0] <= now - window
    ensures IsTail(rec, act[1..], now, window)
  {
    var k := |rec| - |act|;
    assert act[0] == rec[k] && act[1..] == rec[k + 1..];
  }

  lemma RestIsYoung(rec: Times, act: Times, now: real, window: real)
    requires IsTail(rec, act, now, window) && (act == [] || act[0] > now - window)
    ensures forall i :: 0 <= i < |act| ==> act[i] > now - window
  {
    var k := |rec| - |act|;
    forall i | 0 <= i < |act| ensures act[i] > now - window {
      assert act[0] == rec[k] && act[i] == rec[k + i];
      if i > 0 { assert rec[k] <= rec[k + i]; }
    }
  }

  lemma OneAppended(rec: Times, act: Times, now: real, window: real)
    requires IsTail(rec, act, now, window)
    ensures IsTail(rec + [now], act + [now], now, window)
  {
    assert (rec + [now])[|rec| - |act|..] == act + [now];
  }

  lemma CountsRecent(rec: Times, active: Times, max: nat, window: real, now: real)
    requires max >= 1 && Ordered(rec) && |active| <= |rec| && active == rec[|rec| - |active|..]
    requires forall i :: 0 <= i < |active| ==> active[i] > now - window
    requires forall i :: 0 <= i < |rec| - |active| ==> rec[i] <= now - window
    ensures |active| < max <==> !Blocked(rec, max, window, now)
  {
    if |active| >= max {
      assert active[|active| - max] == rec[|rec| - max];
    }
  }

  // ------------------------------------------------------------------- login

  datatype SessionValue = Flag(on: bool) | Text(text: string) | Time(at: real)

  datatype LoginResult = LoginResult(success: bool, blocked: bool)

  /** One attempt: who, whether the credentials are right, and the three clock readings. */
  datatype Attempt = Attempt(source: string, credentialsOk: bool, checkedAt: real, failedAt: real, wallTime: real)

  /** What an attempt makes of its source's recorded failures. */
  function After(ts: Times, a: Attempt, max: nat, window: real): Times
    requires max >= 1
  {
    if Blocked(ts, max, window, a.checkedAt) then ts else if a.credentialsOk then [] else ts + [a.failedAt]
  }

  /** A session counts while it says so and has not expired. */
  predicate IsAuthenticated(session: map<string, SessionValue>, now: real) {
    && "authenticated" in session && session["authenticated"] == Flag(true)
    && "expires_at" in session && session["expires_at"].Time? && session["expires_at"].at > now
  }

  class AdminLoginManager {
    const limiter: LoginAttemptLimiter
    const configuredUsername: string
    const sessionLifetime: real
    var session: map<string, SessionValue>

    constructor (limiter: LoginAttemptLimiter, configuredUsername: string, sessionLifetime: real)
      ensures this.limiter == limiter && this.configuredUsername == configuredUsername
      ensures this.sessionLifetime == sessionLifetime
      ensures session == map[]
    {
      this.limiter, this.configuredUsername, this.sessionLifetime, session :=
        limiter, configuredUsername, sessionLifetime, map[];
    }

    ghost predicate RateBounded()
      reads limiter
    {
      limiter.Valid() && forall s :: Spaced(limiter.Recorded(s), limiter.maxFailures, limiter.windowSeconds)
    }

    method AttemptLogin(a: Attempt) returns (r: LoginResult)
      requires RateBounded() && limiter.lastSeen <= a.checkedAt <= a.failedAt
      modifies this`session, limiter
      ensures RateBounded() && limiter.lastSeen <= a.failedAt
      ensures r.blocked <==>
        Blocked(old(limiter.Recorded(a.source)), limiter.maxFailures, limiter.windowSeconds, a.checkedAt)
      ensures r.success <==> !r.blocked && a.credentialsOk
      ensures limiter.Recorded(a.source) ==
        After(old(limiter.Recorded(a.source)), a, limiter.maxFailures, limiter.windowSeconds)
      ensures forall s :: s != a.source ==> limiter.Recorded(s) == old(limiter.Recorded(s))
      ensures r.success ==>
        && session.Keys == {"authenticated", "username", "expires_at"}
        && session["username"] == Text(configuredUsername)
        && forall now :: IsAuthenticated(session, now) <==> now < a.wallTime + sessionLifetime
      ensures !r.success ==> session == old(session)
    {
      var allowed := limiter.AllowsAttempt(a.source, a.checkedAt);
      if !allowed {
        return LoginResult(false, true);
      }
      if !a.credentialsOk {
        NextIsSpaced(limiter.Recorded(a.source), limiter.maxFailures, limiter.windowSeconds, a.checkedAt, a.failedAt);
        ghost var limit, window := limiter.maxFailures, limiter.windowSeconds;
        limiter.RecordFailure(a.source, a.failedAt);
        forall s ensures Spaced(limiter.Recorded(s), limit, window) {
          assert old(Spaced(limiter.Recorded(s), limit, window));
        }
        return LoginResult(false, false);
      }
      ghost var limit, window := limiter.maxFailures, limiter.windowSeconds;
      limiter.Reset(a.source);
      forall s ensures Spaced(limiter.Recorded(s), limit, window) {
        assert old(Spaced(limiter.Recorded(s), limit, window));
      }
      session := SessionFor(a.wallTime);
      return LoginResult(true, false);
    }

    function SessionFor(wallTime: real): map<string, SessionValue> {
      map[
        "authenticated" := Flag(true),
        "username" := Text(configuredUsername),
        "expires_at" := Time(wallTime + sessionLifetime)]
    }

    /** Any run of attempts: the rate bound holds at every source, and what a source has against it is
    what its own attempts alone would have left. */
    method Serve(attempts: seq<Attempt>) returns (results: seq<LoginResult>)
      requires RateBounded() && limiter.recorded == map[] && Chronological(limiter.lastSeen, attempts)
      modifies this`session, limiter
      ensures RateBounded() && |results| == |attempts|
      ensures forall s :: limiter.Recorded(s) == OwnFailures(attempts, s, limiter.maxFailures, limiter.windowSeconds)
    {
      results := [];
      ghost var start := limiter.lastSeen;
      for i := 0 to |attempts|
        invariant RateBounded() && |results| == i
        invariant limiter.lastSeen <= if i == 0 then start else attempts[i - 1].failedAt
        invariant forall s ::
          limiter.Recorded(s) == OwnFailures(attempts[..i], s, limiter.maxFailures, limiter.windowSeconds)
      {
        InTime(start, attempts, i);
        assert attempts[..i + 1][..i] == attempts[..i];
        var r := AttemptLogin(attempts[i]);
        results := results + [r];
      }
      assert attempts[..|attempts|] == attempts;
    }
  }

  predicate Chronological(start: real, attempts: seq<Attempt>) {
    && (forall i :: 0 <= i < |attempts| ==> attempts[i].checkedAt <= attempts[i].failedAt)
    && (attempts != [] ==> start <= attempts[0].checkedAt)
    && (forall i :: 0 < i < |attempts| ==> attempts[i - 1].failedAt <= attempts[i].checkedAt)
  }

  lemma InTime(start: real, attempts: seq<Attempt>, i: nat)
    requires Chronological(start, attempts) && i < |attempts|
    ensures (if i == 0 then start else attempts[i - 1].failedAt) <= attempts[i].checkedAt <= attempts[i].failedAt
  {
  }

  /** Failures of one source after a run of which only its own attempts count. */
  ghost function OwnFailures(attempts: seq<Attempt>, source: string, max: nat, window: real): Times
    requires max >= 1
  {
    if attempts == [] then []
    else
      var before, last := OwnFailures(attempts[..|attempts| - 1], source, max, window), attempts[|attempts| - 1];
      if last.source == source then After(before, last, max, window) else before
  }

  function OnlyFrom(attempts: seq<Attempt>, source: string): seq<Attempt> {
    if attempts == [] then []
    else
      OnlyFrom(attempts[..|attempts| - 1], source) +
      (if attempts[|attempts| - 1].source == source then [attempts[|attempts| - 1]] else [])
  }

  /** Sources do not affect each other: leaving out all other sources' attempts changes nothing. */
  lemma {:induction false} OthersDoNotMatter(attempts: seq<Attempt>, source: string, max: nat, window: real)
    requires max >= 1
    ensures OwnFailures(OnlyFrom(attempts, source), source, max, window) == OwnFailures(attempts, source, max, window)
  {
    hide Blocked;
    if attempts != [] {
      var front, last := attempts[..|attempts| - 1], attempts[|attempts| - 1];
      OthersDoNotMatter(front, source, max, window);
      var own := OnlyFrom(front, source);
      if last.source == source {
        assert (own + [last])[..|own|] == own;
        OwnAttempt(own, last, source);
      } else {
        assert own + [] == own;
      }
    }
  }

  lemma OwnAttempt(own: seq<Attempt>, last: Attempt, source: string)
    requires last.source == source
    ensures (own + [last])[|own|] == last && |own + [last]| == |own| + 1
  {
  }

  lemma NextIsSpaced(ts: Times, max: nat, window: real, checkedAt: real, failedAt: real)
    requires max >= 1 && Spaced(ts, max, window) && !Blocked(ts, max, window, checkedAt) && checkedAt <= failedAt
    ensures Spaced(ts + [failedAt], max, window)
  {
    var more := ts + [failedAt];
    forall i: nat | i + max < |more| ensures more[i] + window <= more[i + max] {
      if i + max == |ts| {
        assert more[i] == ts[|ts| - max];
      }
    }
  }

  /** A blocked source is admitted again as soon as the window has passed since its last failure, and
  no sooner than a window after its `max`-th last one. */
  lemma AdmittedAgain(ts: Times, max: nat, window: real, now: real)
    requires max >= 1 && window > 0.0 && Ordered(ts) && ts != []
    ensures now >= ts[|ts| - 1] + window ==> !Blocked(ts, max, window, now)
    ensures |ts| >= max ==> (Blocked(ts, max, window, now) <==> now < ts[|ts| - max] + window)
  {
    if |ts| >= max && |ts| - max < |ts| - 1 {
      assert ts[|ts| - max] <= ts[|ts| - 1];
    }
  }
}
