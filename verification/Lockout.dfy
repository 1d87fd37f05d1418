/** Failure counting and lockout deadlines, and what they say about the history of
    recorded attempts. */
module Lockout {
  import opened Domain

  const NANOSECONDS := 1_000_000_000

  function Duration(c: Settings): int {
    c.lockoutDurationSec * NANOSECONDS
  }

  const FRESH := LockoutState(0, 0)

  function StateOf(m: map<string, LockoutState>, user: string): LockoutState {
    if user in m then m[user] else FRESH
  }

  predicate Locked(c: Settings, m: map<string, LockoutState>, user: string, now: nat) {
    c.lockoutAttempts > 0 && user in m && now < m[user].until
  }

  function Record(c: Settings, m: map<string, LockoutState>, user: string, success: bool,
                  now: nat): map<string, LockoutState> {
    if c.lockoutAttempts <= 0 then m
    else if success then m[user := FRESH]
    else
      var s := StateOf(m, user);
      m[user := LockoutState(s.failed + 1, if s.failed + 1 >= c.lockoutAttempts then now + Duration(c) else s.until)]
  }

  // ---------------------------------------------------------------------------
  // Histories
  // ---------------------------------------------------------------------------

  /** A recorded attempt: when its lockout gate was read and when it was recorded. */
  datatype Attempt = Attempt(user: string, success: bool, gate: nat, stamp: nat)

  function OfUser(h: seq<Attempt>, user: string): seq<Attempt> {
    if h == [] then []
    else
      var a := h[|h| - 1];
      OfUser(h[..|h| - 1], user) + if a.user == user then [a] else []
  }

  /** Number of failures since the last success. */
  function Streak(h: seq<Attempt>): nat {
    if h == [] || h[|h| - 1].success then 0 else 1 + Streak(h[..|h| - 1])
  }

  /** The history says: at least N failures since the last success, and less than the
      lockout duration since the last failure. */
  predicate HistoryLocks(c: Settings, h: seq<Attempt>, now: nat) {
    Streak(h) >= c.lockoutAttempts && h != [] && now < h[|h| - 1].stamp + Duration(c)
  }

  /** The lockout map is what the history makes it. */
  ghost predicate Explains(c: Settings, h: seq<Attempt>, m: map<string, LockoutState>) {
    forall user :: ExplainsUser(c, OfUser(h, user), StateOf(m, user))
  }

  predicate ExplainsUser(c: Settings, h: seq<Attempt>, s: LockoutState) {
    && s.failed == Streak(h)
    && s.until == if h != [] && Streak(h) >= c.lockoutAttempts then h[|h| - 1].stamp + Duration(c) else 0
  }

  lemma RecordExplained(c: Settings, h: seq<Attempt>, m: map<string, LockoutState>, a: Attempt)
    requires c.lockoutAttempts > 0 && Explains(c, h, m)
    ensures Explains(c, h + [a], Record(c, m, a.user, a.success, a.stamp))
  {
    var m' := Record(c, m, a.user, a.success, a.stamp);
    assert (h + [a])[..|h|] == h;
    forall user
      ensures ExplainsUser(c, OfUser(h + [a], user), StateOf(m', user))
    {
      var hu := OfUser(h, user);
      assert ExplainsUser(c, hu, StateOf(m, user));
      if user == a.user {
        assert (hu + [a])[..|hu|] == hu;
      } else {
        assert hu + [] == hu;
      }
    }
  }

  lemma LockedIsHistory(c: Settings, h: seq<Attempt>, m: map<string, LockoutState>, user: string, now: nat)
    requires c.lockoutAttempts > 0 && Explains(c, h, m)
    ensures Locked(c, m, user, now) <==> HistoryLocks(c, OfUser(h, user), now)
  {
    assert ExplainsUser(c, OfUser(h, user), StateOf(m, user));
  }

  // ---------------------------------------------------------------------------
  // The rate bound
  // ---------------------------------------------------------------------------

  /** No attempt passed its gate while the attempts before it locked the user. */
  ghost predicate Paced(c: Settings, h: seq<Attempt>) {
    forall k :: 0 <= k < |h| ==> h[k].gate <= h[k].stamp && !HistoryLocks(c, h[..k], h[k].gate)
  }

  lemma PacedAppend(c: Settings, h: seq<Attempt>, a: Attempt)
    requires Paced(c, h) && a.gate <= a.stamp && !HistoryLocks(c, h, a.gate)
    ensures Paced(c, h + [a])
  {
    forall k | 0 <= k < |h| + 1
      ensures (h + [a])[k].gate <= (h + [a])[k].stamp && !HistoryLocks(c, (h + [a])[..k], (h + [a])[k].gate)
    {
      assert (h + [a])[..k] == if k < |h| then h[..k] else h;
    }
  }

  lemma {:induction false} StreakOfFailures(h: seq<Attempt>, m: nat)
    requires m <= |h| && forall k :: |h| - m <= k < |h| ==> !h[k].success
    ensures Streak(h) >= m
  {
    if m > 0 {
      StreakOfFailures(h[..|h| - 1], m - 1);
    }
  }

  /** Of `m` failures in a row, the last one comes at least (m - N) lockout durations
      after the N-th. */
  lemma {:induction false} RateBound(c: Settings, h: seq<Attempt>, i: nat, m: nat)
    requires Paced(c, h) && 0 < c.lockoutAttempts <= m && i + m <= |h|
    requires forall k :: i <= k < i + m ==> !h[k].success
    ensures h[i + m - 1].stamp >= h[i + c.lockoutAttempts - 1].stamp + (m - c.lockoutAttempts) * Duration(c)
  {
    if m > c.lockoutAttempts {
      RateBound(c, h, i, m - 1);
      var last := i + m - 1;
      StreakOfFailures(h[..last], m - 1);
      assert h[..last][last - 1] == h[last - 1];
      assert !HistoryLocks(c, h[..last], h[last].gate);
      assert (m - c.lockoutAttempts) * Duration(c) == (m - 1 - c.lockoutAttempts) * Duration(c) + Duration(c);
    }
  }
}
