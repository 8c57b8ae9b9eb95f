/** The in-memory login rate limiter of the auth back end
    (backend/auth/rate_limiter.py): per client address, a list of
    (timestamp, success) attempts and an optional block expiry. Time is a
    number of seconds passed in as `now`; each operation reads the clock once. */
module RateLimiter {

  const MaxAttempts := 5
  const WindowSeconds := 15 * 60
  const BlockSeconds := 30 * 60

  datatype Attempt = Attempt(ts: int, success: bool)

  /** The attempts newer than `cutoff`, in their original order. */
  function Recent(attempts: seq<Attempt>, cutoff: int): (r: seq<Attempt>)
    ensures |r| <= |attempts|
    ensures forall i :: 0 <= i < |r| ==> r[i].ts > cutoff && r[i] in attempts
  {
    if attempts == [] then []
    else
      var last := attempts[|attempts| - 1];
      Recent(attempts[..|attempts| - 1], cutoff) + (if last.ts > cutoff then [last] else [])
  }

  /** The number of failed attempts in `attempts`. */
  function Failures(attempts: seq<Attempt>): (n: nat)
    ensures n <= |attempts|
  {
    if attempts == [] then 0
    else Failures(attempts[..|attempts| - 1]) + (if attempts[|attempts| - 1].success then 0 else 1)
  }

  /** `max(0, MAX_ATTEMPTS - failed)` */
  function RemainingFor(attempts: seq<Attempt>): (n: int)
    ensures 0 <= n <= MaxAttempts
    ensures n == 0 <==> Failures(attempts) >= MaxAttempts
  {
    if MaxAttempts - Failures(attempts) < 0 then 0 else MaxAttempts - Failures(attempts)
  }

  class Limiter {
    /** `login_attempts`: a `defaultdict(list)`, so a missing address reads as []. */
    var loginAttempts: map<string, seq<Attempt>>
    /** `blocked_ips`: address to the time its block ends. */
    var blockedIps: map<string, int>

    constructor()
      ensures loginAttempts == map[] && blockedIps == map[]
    {
      loginAttempts := map[];
      blockedIps := map[];
    }

    function Attempts(ip: string): seq<Attempt>
      reads this
    {
      if ip in loginAttempts then loginAttempts[ip] else []
    }

    /** `clean_old_attempts(ip)`: keep only the attempts of `ip` newer than
        the window; every other address is untouched. */
    method CleanOldAttempts(ip: string, now: int)
      modifies this
      ensures loginAttempts == old(loginAttempts)[ip := Recent(old(Attempts(ip)), now - WindowSeconds)]
      ensures blockedIps == old(blockedIps)
    {
      var cutoff := now - WindowSeconds;
      var attempts := Attempts(ip);
      var kept := [];
      var i := 0;
      while i < |attempts|
        invariant 0 <= i <= |attempts|
        invariant kept == Recent(attempts[..i], cutoff)
      {
        assert attempts[..i + 1][..i] == attempts[..i];
        if attempts[i].ts > cutoff {
          kept := kept + [attempts[i]];
        }
        i := i + 1;
      }
      assert attempts[..|attempts|] == attempts;
      loginAttempts := loginAttempts[ip := kept];
    }

    /** `is_blocked(ip)`: true while the block lasts; an expired block is
        deleted and the address's attempts are emptied. */
    method IsBlocked(ip: string, now: int) returns (blocked: bool)
      modifies this
      ensures blocked <==> ip in old(blockedIps) && now < old(blockedIps)[ip]
      ensures ip in old(blockedIps) && !blocked ==>
        blockedIps == old(blockedIps) - {ip} && loginAttempts == old(loginAttempts)[ip := []]
      ensures ip !in old(blockedIps) || blocked ==>
        blockedIps == old(blockedIps) && loginAttempts == old(loginAttempts)
    {
      if ip in blockedIps {
        if now < blockedIps[ip] {
          return true;
        } else {
          blockedIps := blockedIps - {ip};
          loginAttempts := loginAttempts[ip := []];
        }
      }
      return false;
    }

    /** `record_attempt(ip, success)`: clean the window, append the attempt,
        and block the address for 30 minutes when the failures now in the
        window reach the threshold. An existing block is not consulted. */
    method RecordAttempt(ip: string, success: bool, now: int) returns (blocked: bool)
      modifies this
      ensures var attempts := Recent(old(Attempts(ip)), now - WindowSeconds) + [Attempt(now, success)];
        && loginAttempts == old(loginAttempts)[ip := attempts]
        && (blocked <==> Failures(attempts) >= MaxAttempts)
        && blockedIps == if blocked then old(blockedIps)[ip := now + BlockSeconds] else old(blockedIps)
    {
      CleanOldAttempts(ip, now);
      var attempts := loginAttempts[ip] + [Attempt(now, success)];
      assert attempts == Recent(old(Attempts(ip)), now - WindowSeconds) + [Attempt(now, success)];
      loginAttempts := loginAttempts[ip := attempts];
      var failed := CountFailures(attempts);
      if failed >= MaxAttempts {
        blockedIps := blockedIps[ip := now + BlockSeconds];
        return true;
      }
      return false;
    }

    /** `get_remaining_attempts(ip)`: clean the window, then report how many
        failures remain before a block. */
    method GetRemainingAttempts(ip: string, now: int) returns (remaining: int)
      modifies this
      ensures loginAttempts == old(loginAttempts)[ip := Recent(old(Attempts(ip)), now - WindowSeconds)]
      ensures blockedIps == old(blockedIps)
      ensures remaining == RemainingFor(Recent(old(Attempts(ip)), now - WindowSeconds))
    {
      CleanOldAttempts(ip, now);
      var failed := CountFailures(loginAttempts[ip]);
      remaining := if MaxAttempts - failed < 0 then 0 else MaxAttempts - failed;
    }
  }

  /** `len([1 for ts, s in attempts if not s])` */
  method CountFailures(attempts: seq<Attempt>) returns (n: nat)
    ensures n == Failures(attempts)
  {
    n := 0;
    var i := 0;
    while i < |attempts|
      invariant 0 <= i <= |attempts|
      invariant n == Failures(attempts[..i])
    {
      assert attempts[..i + 1][..i] == attempts[..i];
      if !attempts[i].success {
        n := n + 1;
      }
      i := i + 1;
    }
    assert attempts[..|attempts|] == attempts;
  }

  // ---------------------------------------------------------------------
  // Properties of the window and the count
  // ---------------------------------------------------------------------

  /** Filtering distributes over concatenation, so it keeps the order. */
  lemma {:induction false} RecentAppend(a: seq<Attempt>, b: seq<Attempt>, cutoff: int)
    ensures Recent(a + b, cutoff) == Recent(a, cutoff) + Recent(b, cutoff)
  {
    if b == [] {
      assert a + b == a;
    } else {
      var ab := a + b;
      assert ab[..|ab| - 1] == a + b[..|b| - 1];
      assert ab[|ab| - 1] == b[|b| - 1];
      RecentAppend(a, b[..|b| - 1], cutoff);
    }
  }

  /** An attempt is kept exactly when it is newer than the cut-off. */
  lemma {:induction false} RecentKeeps(attempts: seq<Attempt>, cutoff: int, x: Attempt)
    ensures x in Recent(attempts, cutoff) <==> x in attempts && x.ts > cutoff
  {
    if attempts != [] {
      var init := attempts[..|attempts| - 1];
      RecentKeeps(init, cutoff, x);
      assert attempts == init + [attempts[|attempts| - 1]];
    }
  }

  /** Cleaning twice with a later (or the same) cut-off is cleaning once with
      the later one; in particular cleaning is idempotent at a fixed time. */
  lemma {:induction false} RecentTwice(attempts: seq<Attempt>, c1: int, c2: int)
    requires c1 <= c2
    ensures Recent(Recent(attempts, c1), c2) == Recent(attempts, c2)
  {
    if attempts != [] {
      var init := attempts[..|attempts| - 1];
      var last := attempts[|attempts| - 1];
      RecentTwice(init, c1, c2);
      RecentAppend(Recent(init, c1), if last.ts > c1 then [last] else [], c2);
      if last.ts > c1 {
        assert [last][..0] == [];
      }
    }
  }

  lemma {:induction false} FailuresAppend(a: seq<Attempt>, x: Attempt)
    ensures Failures(a + [x]) == Failures(a) + (if x.success then 0 else 1)
  {
    assert (a + [x])[..|a|] == a;
  }

  /** Cleaning never adds failures. */
  lemma {:induction false} FailuresRecent(attempts: seq<Attempt>, cutoff: int)
    ensures Failures(Recent(attempts, cutoff)) <= Failures(attempts)
  {
    if attempts != [] {
      var init := attempts[..|attempts| - 1];
      var last := attempts[|attempts| - 1];
      FailuresRecent(init, cutoff);
      if last.ts > cutoff {
        FailuresAppend(Recent(init, cutoff), last);
      } else {
        assert Recent(attempts, cutoff) == Recent(init, cutoff);
      }
    }
  }

  /** Attempts all older than the window leave nothing behind. */
  lemma {:induction false} RecentOfExpired(attempts: seq<Attempt>, cutoff: int)
    requires forall i :: 0 <= i < |attempts| ==> attempts[i].ts <= cutoff
    ensures Recent(attempts, cutoff) == []
    ensures RemainingFor(Recent(attempts, cutoff)) == MaxAttempts
  {
    if attempts != [] {
      RecentOfExpired(attempts[..|attempts| - 1], cutoff);
    }
  }

  /** What `record_attempt` leaves for `ip`, given its old list. */
  function AfterRecord(attempts: seq<Attempt>, success: bool, now: int): seq<Attempt> {
    Recent(attempts, now - WindowSeconds) + [Attempt(now, success)]
  }

  /** At a fixed time, one failed attempt lowers the remaining count by
      exactly one until it reaches 0. */
  lemma FailureLowersRemaining(attempts: seq<Attempt>, now: int)
    ensures var before := Recent(attempts, now - WindowSeconds);
      var after := Recent(AfterRecord(attempts, false, now), now - WindowSeconds);
      RemainingFor(after) == if RemainingFor(before) == 0 then 0 else RemainingFor(before) - 1
  {
    SameTimeClean(attempts, false, now);
    FailuresAppend(Recent(attempts, now - WindowSeconds), Attempt(now, false));
  }

  /** A success neither counts nor erases a failure: the remaining count is
      unchanged, and with five failures still in the window a success also
      reports a block. */
  lemma SuccessKeepsFailures(attempts: seq<Attempt>, now: int)
    ensures var before := Recent(attempts, now - WindowSeconds);
      && Failures(AfterRecord(attempts, true, now)) == Failures(before)
      && RemainingFor(Recent(AfterRecord(attempts, true, now), now - WindowSeconds)) == RemainingFor(before)
  {
    SameTimeClean(attempts, true, now);
    FailuresAppend(Recent(attempts, now - WindowSeconds), Attempt(now, true));
  }

  /** The fifth failure inside one window blocks. */
  lemma FifthFailureBlocks(attempts: seq<Attempt>, now: int)
    requires Failures(Recent(attempts, now - WindowSeconds)) == MaxAttempts - 1
    ensures Failures(AfterRecord(attempts, false, now)) >= MaxAttempts
  {
    FailuresAppend(Recent(attempts, now - WindowSeconds), Attempt(now, false));
  }

  /** Cleaning right after recording, at the same time, removes nothing. */
  lemma SameTimeClean(attempts: seq<Attempt>, success: bool, now: int)
    ensures Recent(AfterRecord(attempts, success, now), now - WindowSeconds) == AfterRecord(attempts, success, now)
  {
    var cutoff := now - WindowSeconds;
    RecentAppend(Recent(attempts, cutoff), [Attempt(now, success)], cutoff);
    RecentTwice(attempts, cutoff, cutoff);
    assert [Attempt(now, success)][..0] == [];
  }

  /** Five failures at one moment block the address for exactly
      `BlockSeconds`; once the block has expired the address starts again
      with the full number of attempts. */
  method FiveFailuresBlockThenReset(ip: string, now: int)
    returns (fifth: bool, duringBlock: bool, afterBlock: bool, remaining: int)
    ensures fifth && duringBlock && !afterBlock && remaining == MaxAttempts
  {
    var limiter;
    limiter, fifth := FailRepeatedly(ip, now);
    duringBlock := limiter.IsBlocked(ip, now + BlockSeconds - 1);
    afterBlock := limiter.IsBlocked(ip, now + BlockSeconds);
    remaining := limiter.GetRemainingAttempts(ip, now + BlockSeconds);
  }

  /** A fresh limiter after `MaxAttempts` failures of `ip` at time `now`. */
  method FailRepeatedly(ip: string, now: int) returns (limiter: Limiter, fifth: bool)
    ensures fresh(limiter)
    ensures limiter.loginAttempts == map[ip := Repeat(Attempt(now, false), MaxAttempts)]
    ensures limiter.blockedIps == map[ip := now + BlockSeconds]
    ensures fifth
  {
    limiter := new Limiter();
    var k := 0;
    fifth := false;
    while k < MaxAttempts
      invariant 0 <= k <= MaxAttempts
      invariant limiter.Attempts(ip) == Repeat(Attempt(now, false), k)
      invariant k == 0 ==> limiter.loginAttempts == map[]
      invariant k > 0 ==> limiter.loginAttempts == map[ip := Repeat(Attempt(now, false), k)]
      invariant k < MaxAttempts ==> limiter.blockedIps == map[]
      invariant k == MaxAttempts ==> limiter.blockedIps == map[ip := now + BlockSeconds]
      invariant fifth <==> k == MaxAttempts
    {
      fifth := FailOnce(limiter, ip, now, k);
      k := k + 1;
    }
  }

  /** One more failure of the only address, all at one moment. */
  method FailOnce(limiter: Limiter, ip: string, now: int, k: nat) returns (blocked: bool)
    requires k < MaxAttempts
    requires limiter.Attempts(ip) == Repeat(Attempt(now, false), k)
    requires k == 0 ==> limiter.loginAttempts == map[]
    requires k > 0 ==> limiter.loginAttempts == map[ip := Repeat(Attempt(now, false), k)]
    requires limiter.blockedIps == map[]
    modifies limiter
    ensures limiter.loginAttempts == map[ip := Repeat(Attempt(now, false), k + 1)]
    ensures blocked <==> k + 1 == MaxAttempts
    ensures limiter.blockedIps == if blocked then map[ip := now + BlockSeconds] else map[]
  {
    RepeatRecent(now, k);
    FailuresRepeat(Attempt(now, false), k + 1);
    assert Repeat(Attempt(now, false), k) + [Attempt(now, false)] == Repeat(Attempt(now, false), k + 1);
    blocked := limiter.RecordAttempt(ip, false, now);
    assert limiter.loginAttempts == map[ip := Repeat(Attempt(now, false), k + 1)];
  }

  function Repeat(x: Attempt, k: nat): (r: seq<Attempt>)
    ensures |r| == k && forall i :: 0 <= i < k ==> r[i] == x
  {
    if k == 0 then [] else Repeat(x, k - 1) + [x]
  }

  lemma {:induction false} RepeatRecent(now: int, k: nat)
    ensures Recent(Repeat(Attempt(now, false), k), now - WindowSeconds) == Repeat(Attempt(now, false), k)
  {
    if k > 0 {
      RepeatRecent(now, k - 1);
      assert Repeat(Attempt(now, false), k)[..k - 1] == Repeat(Attempt(now, false), k - 1);
    }
  }

  lemma {:induction false} FailuresRepeat(x: Attempt, k: nat)
    requires !x.success
    ensures Failures(Repeat(x, k)) == k
  {
    if k > 0 {
      FailuresRepeat(x, k - 1);
      assert Repeat(x, k)[..k - 1] == Repeat(x, k - 1);
    }
  }
}
