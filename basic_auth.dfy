/**
 * The Basic-Auth guard: credentials are compared with one configured
 * username and password, and each client IP that fails too often is locked
 * out for a fixed time. Two maps keyed by IP hold the state: the count of
 * failed attempts and the time at which a lockout ends. Attempts are taken
 * one at a time (the source serialises them with a mutex); time is an
 * integer supplied by the caller.
 */
module BasicAuthLockout {
  import opened Wrappers

  const StatusTooManyRequests := 429
  const TooManyAttempts := "Too many failed attempts. Try again later."

  /** The error value echo turns into an HTTP response. */
  datatype HttpError = HttpError(code: int, message: string)

  /**
   * What the validator reports for one attempt: accepted `(true, nil)`,
   * rejected `(false, nil)` (echo answers 401) or refused with 429.
   */
  datatype Verdict = Accepted | Rejected | TooManyRequests

  datatype Config = Config(username: string, password: string, maxFailedAttempts: int, lockoutDuration: int)

  /** The per-IP bookkeeping. */
  datatype Guard = Guard(failedAttempts: map<string, int>, lockoutEndTime: map<string, int>)

  /** One credential check by a client. */
  datatype Try = Try(user: string, pass: string, ip: string, now: int)

  /** Go's `m[ip]` on an int map: zero when the key is absent. */
  function Count(g: Guard, ip: string): int
  {
    if ip in g.failedAttempts then g.failedAttempts[ip] else 0
  }

  predicate LockedOut(g: Guard, ip: string, now: int)
  {
    ip in g.lockoutEndTime && now < g.lockoutEndTime[ip]
  }

  predicate Correct(cfg: Config, t: Try)
  {
    t.user == cfg.username && t.pass == cfg.password
  }

  /**
   * The transition taken by one attempt, and its verdict: only correct
   * credentials from an address that is not locked out are accepted, and
   * acceptance leaves no counter and no lockout for that address.
   */
  function Attempt(g: Guard, cfg: Config, t: Try): (r: (Guard, Verdict))
    ensures r.1 == Accepted <==> !LockedOut(g, t.ip, t.now) && Correct(cfg, t)
    ensures r.1 == Accepted ==> t.ip !in r.0.failedAttempts && t.ip !in r.0.lockoutEndTime
  {
    if LockedOut(g, t.ip, t.now) then (g, TooManyRequests)
    else
      var g1 := if t.ip in g.lockoutEndTime
        then Guard(g.failedAttempts - {t.ip}, g.lockoutEndTime - {t.ip})
        else g;
      if Correct(cfg, t) then (g1.(failedAttempts := g1.failedAttempts - {t.ip}), Accepted)
      else
        var count := Count(g1, t.ip) + 1;
        var g2 := g1.(failedAttempts := g1.failedAttempts[t.ip := count]);
        if count >= cfg.maxFailedAttempts
        then (g2.(lockoutEndTime := g2.lockoutEndTime[t.ip := t.now + cfg.lockoutDuration]), TooManyRequests)
        else (g2, Rejected)
  }

  /** The validator's Go return pair for a verdict. */
  function Reply(v: Verdict): (bool, Option<HttpError>)
  {
    match v
    case Accepted => (true, None)
    case Rejected => (false, None)
    case TooManyRequests => (false, Some(HttpError(StatusTooManyRequests, TooManyAttempts)))
  }

  class AuthMiddleware {
    const username: string
    const password: string
    const maxFailedAttempts: int
    const lockoutDuration: int
    var failedAttempts: map<string, int>
    var lockoutEndTime: map<string, int>

    function Settings(): Config
    {
      Config(username, password, maxFailedAttempts, lockoutDuration)
    }

    function State(): Guard
      reads this
    {
      Guard(failedAttempts, lockoutEndTime)
    }

    /** A fresh guard remembers no failure and no lockout. */
    constructor (username: string, password: string, maxFailedAttempts: int, lockoutDuration: int)
      ensures Settings() == Config(username, password, maxFailedAttempts, lockoutDuration)
      ensures failedAttempts == map[] && lockoutEndTime == map[]
    {
      this.username := username;
      this.password := password;
      this.maxFailedAttempts := maxFailedAttempts;
      this.lockoutDuration := lockoutDuration;
      failedAttempts := map[];
      lockoutEndTime := map[];
    }

    /** The validator run by the Basic-Auth middleware for one request. */
    method BasicAuth(u: string, p: string, clientIP: string, now: int) returns (ok: bool, err: Option<HttpError>)
      modifies this
      ensures var (g, v) := Attempt(old(State()), Settings(), Try(u, p, clientIP, now));
        State() == g && (ok, err) == Reply(v)
    {
      if clientIP in lockoutEndTime {
        var lockoutEnd := lockoutEndTime[clientIP];
        if now < lockoutEnd {
          return false, Some(HttpError(StatusTooManyRequests, TooManyAttempts));
        }
        lockoutEndTime := lockoutEndTime - {clientIP};
        failedAttempts := failedAttempts - {clientIP};
      }

      if u == username && p == password {
        failedAttempts := failedAttempts - {clientIP};
        return true, None;
      }

      var count := if clientIP in failedAttempts then failedAttempts[clientIP] else 0;
      failedAttempts := failedAttempts[clientIP := count + 1];
      if failedAttempts[clientIP] >= maxFailedAttempts {
        lockoutEndTime := lockoutEndTime[clientIP := now + lockoutDuration];
        return false, Some(HttpError(StatusTooManyRequests, TooManyAttempts));
      }

      return false, None;
    }
  }

  // ---------------------------------------------------------------------
  // Properties of one attempt
  // ---------------------------------------------------------------------

  /** While an IP is locked out every attempt from it gets 429, right credentials included, and nothing changes. */
  lemma LockoutRefusesEverything(g: Guard, cfg: Config, t: Try)
    requires LockedOut(g, t.ip, t.now)
    ensures Attempt(g, cfg, t) == (g, TooManyRequests)
  {
  }

  /** Correct credentials outside a lockout are accepted and clear the IP's counter and any expired lockout. */
  lemma CorrectCredentialsAccepted(g: Guard, cfg: Config, t: Try)
    requires !LockedOut(g, t.ip, t.now) && Correct(cfg, t)
    ensures var (g', v) := Attempt(g, cfg, t);
      && v == Accepted
      && g'.failedAttempts == g.failedAttempts - {t.ip}
      && g'.lockoutEndTime == g.lockoutEndTime - {t.ip}
  {
  }

  /**
   * A wrong attempt outside a lockout adds one to the IP's counter (which
   * restarts from zero once a lockout has expired); reaching the maximum
   * locks the IP until `now + lockoutDuration` and answers 429, below it the
   * attempt is merely rejected.
   */
  lemma WrongCredentialsCounted(g: Guard, cfg: Config, t: Try)
    requires !LockedOut(g, t.ip, t.now) && !Correct(cfg, t)
    ensures var (g', v) := Attempt(g, cfg, t);
      var before := if t.ip in g.lockoutEndTime then 0 else Count(g, t.ip);
      && g'.failedAttempts == g.failedAttempts[t.ip := before + 1]
      && (before + 1 >= cfg.maxFailedAttempts ==>
            v == TooManyRequests && g'.lockoutEndTime == g.lockoutEndTime[t.ip := t.now + cfg.lockoutDuration])
      && (before + 1 < cfg.maxFailedAttempts ==>
            v == Rejected && g'.lockoutEndTime == g.lockoutEndTime - {t.ip})
  {
  }

  /** An attempt touches only its own IP's entries. */
  lemma OtherAddressesUntouched(g: Guard, cfg: Config, t: Try)
    ensures var g' := Attempt(g, cfg, t).0;
      && g'.failedAttempts - {t.ip} == g.failedAttempts - {t.ip}
      && g'.lockoutEndTime - {t.ip} == g.lockoutEndTime - {t.ip}
  {
  }

  /**
   * With a threshold of at least one, the two maps stay consistent: a
   * counter is between 1 and the threshold, and an IP has a lockout entry
   * exactly when its counter has reached the threshold.
   */
  ghost predicate Consistent(g: Guard, maxFailedAttempts: int)
  {
    && (forall ip :: ip in g.failedAttempts ==> 1 <= g.failedAttempts[ip] <= maxFailedAttempts)
    && (forall ip :: ip in g.lockoutEndTime <==> ip in g.failedAttempts && g.failedAttempts[ip] == maxFailedAttempts)
  }

  lemma AttemptKeepsConsistent(g: Guard, cfg: Config, t: Try)
    requires cfg.maxFailedAttempts >= 1 && Consistent(g, cfg.maxFailedAttempts)
    ensures Consistent(Attempt(g, cfg, t).0, cfg.maxFailedAttempts)
  {
    var g' := Attempt(g, cfg, t).0;
    forall ip | ip != t.ip
      ensures (ip in g'.failedAttempts <==> ip in g.failedAttempts)
      ensures ip in g'.failedAttempts ==> g'.failedAttempts[ip] == g.failedAttempts[ip]
      ensures (ip in g'.lockoutEndTime <==> ip in g.lockoutEndTime)
    {
      OtherAddressesUntouched(g, cfg, t);
      assert ip in g'.failedAttempts <==> ip in g'.failedAttempts - {t.ip};
      assert ip in g.failedAttempts <==> ip in g.failedAttempts - {t.ip};
      assert ip in g'.lockoutEndTime <==> ip in g'.lockoutEndTime - {t.ip};
      assert ip in g.lockoutEndTime <==> ip in g.lockoutEndTime - {t.ip};
      if ip in g'.failedAttempts {
        assert (g'.failedAttempts - {t.ip})[ip] == (g.failedAttempts - {t.ip})[ip];
      }
    }
  }

  // ---------------------------------------------------------------------
  // Runs of attempts
  // ---------------------------------------------------------------------

  /** Attempts taken in sequence: the final guard and the verdict of each attempt. */
  function Run(g: Guard, cfg: Config, tries: seq<Try>): (r: (Guard, seq<Verdict>))
    ensures |r.1| == |tries|
    decreases |tries|
  {
    if tries == [] then (g, [])
    else
      var (g1, v) := Attempt(g, cfg, tries[0]);
      var (g2, vs) := Run(g1, cfg, tries[1..]);
      (g2, [v] + vs)
  }

  predicate WrongTriesFrom(cfg: Config, tries: seq<Try>, ip: string)
  {
    forall i :: 0 <= i < |tries| ==> tries[i].ip == ip && !Correct(cfg, tries[i])
  }

  lemma {:induction false} WrongTriesUpToThreshold(g: Guard, cfg: Config, tries: seq<Try>, ip: string)
    requires |tries| >= 1 && WrongTriesFrom(cfg, tries, ip)
    requires ip !in g.lockoutEndTime
    requires Count(g, ip) + |tries| == cfg.maxFailedAttempts
    ensures var (g', vs) := Run(g, cfg, tries);
      && (forall i :: 0 <= i < |vs| - 1 ==> vs[i] == Rejected)
      && vs[|vs| - 1] == TooManyRequests
      && ip in g'.lockoutEndTime
      && g'.lockoutEndTime[ip] == tries[|tries| - 1].now + cfg.lockoutDuration
    decreases |tries|
  {
    var (g1, v) := Attempt(g, cfg, tries[0]);
    assert tries[0].ip == ip && !Correct(cfg, tries[0]);
    if |tries| > 1 {
      assert v == Rejected && ip !in g1.lockoutEndTime && Count(g1, ip) == Count(g, ip) + 1;
      WrongTriesUpToThreshold(g1, cfg, tries[1..], ip);
    }
  }

  /**
   * From a fresh guard, `maxFailedAttempts` wrong attempts from one IP are
   * rejected until the last, which locks the IP out and answers 429.
   */
  lemma ThresholdFailuresLockOut(cfg: Config, tries: seq<Try>, ip: string)
    requires cfg.maxFailedAttempts >= 1 && |tries| == cfg.maxFailedAttempts
    requires WrongTriesFrom(cfg, tries, ip)
    ensures var (g', vs) := Run(Guard(map[], map[]), cfg, tries);
      && (forall i :: 0 <= i < |vs| - 1 ==> vs[i] == Rejected)
      && vs[|vs| - 1] == TooManyRequests
      && LockedOut(g', ip, tries[|tries| - 1].now) == (cfg.lockoutDuration > 0)
  {
    WrongTriesUpToThreshold(Guard(map[], map[]), cfg, tries, ip);
  }
}
