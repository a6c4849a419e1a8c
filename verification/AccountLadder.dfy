/** The per-account half of the rate limiter: the ladder of failed attempts, its lock, and the sweep
    that forgets trackers, as a state machine over timed events. Times are nanoseconds. */
module AccountLadder {
  import opened Clock

  /** The contents of one tracker. */
  datatype AccountState = AccountState(failedAttempts: nat, lastFailed: int, isLocked: bool)

  datatype Reply = Reply(warning: string, locked: bool)

  type Table = map<string, AccountState>

  function NewTracker(now: int): AccountState {
    AccountState(0, now, false)
  }

  function Lookup(m: Table, email: string, now: int): AccountState {
    if email in m then m[email] else NewTracker(now)
  }

  /** One login attempt charged to a tracker. */
  function Record(s: AccountState, success: bool, now: int): (AccountState, Reply) {
    if s.isLocked then (s, Reply("", true))
    else if success then (s.(failedAttempts := 0), Reply("", false))
    else
      var before := if s.failedAttempts > 0 && now - s.lastFailed > HOUR then 0 else s.failedAttempts;
      var failed := before + 1;
      (AccountState(failed, now, failed >= 5),
       if failed >= 5 then Reply("", true)
       else if failed == 3 then Reply("2 attempts remaining before lockout", false)
       else if failed == 4 then Reply("1 attempt remaining before lockout", false)
       else Reply("", false))
  }

  predicate Evictable(s: AccountState, now: int) {
    now - s.lastFailed > HOUR
  }

  datatype Event =
    | Attempt(email: string, success: bool, now: int)
    | Sweep(email: string, now: int)   // the sweep reaching one key of the map

  function Step(m: Table, e: Event): Table {
    match e
    case Attempt(email, success, now) => m[email := Record(Lookup(m, email, now), success, now).0]
    case Sweep(email, now) => if email in m && Evictable(m[email], now) then m - {email} else m
  }

  /** The map of trackers after a run. Without `sweeping` it is the limiter that never forgets. */
  function After(run: seq<Event>, sweeping: bool): Table {
    if run == [] then map[]
    else
      var m := After(run[..|run| - 1], sweeping);
      var e := run[|run| - 1];
      if e.Sweep? && !sweeping then m else Step(m, e)
  }

  /** The answer of IsAccountLocked. */
  predicate LockedIn(m: Table, email: string) {
    email in m && m[email].isLocked
  }

  /** The reply to an attempt that comes after the run. */
  function ReplyAfter(run: seq<Event>, sweeping: bool, email: string, success: bool, now: int): Reply {
    Record(Lookup(After(run, sweeping), email, now), success, now).1
  }

  /** The reply to the attempt that is event i of the run. */
  function Answer(run: seq<Event>, sweeping: bool, i: nat): Reply
    requires i < |run| && run[i].Attempt?
  {
    ReplyAfter(run[..i], sweeping, run[i].email, run[i].success, run[i].now)
  }

  /** An attempt is never earlier than an event before it; a sweep may use a time read earlier. */
  ghost predicate Timed(run: seq<Event>) {
    forall i, j :: 0 <= i < j < |run| && run[j].Attempt? ==> run[i].now <= run[j].now
  }

  /** What appending one event does to a run with sweeping. */
  lemma Extend(run: seq<Event>, e: Event)
    requires Timed(run) && (e.Attempt? ==> forall i :: 0 <= i < |run| ==> run[i].now <= e.now)
    ensures Timed(run + [e])
    ensures After(run + [e], true) == Step(After(run, true), e)
    ensures e.Attempt? ==> Answer(run + [e], true, |run|) == ReplyAfter(run, true, e.email, e.success, e.now)
  {
    assert (run + [e])[..|run|] == run;
  }

  lemma TableUpdated(m: Table, n: Table, email: string)
    requires n.Keys == m.Keys && email in m && forall k :: k in m && k != email ==> n[k] == m[k]
    ensures n == m[email := n[email]]
  {
  }

  /** The table once a sweep has reached every key but those in `left`. */
  function SweptBut(m: Table, left: set<string>, now: int): Table {
    map k | k in m && (k in left || !Evictable(m[k], now)) :: m[k]
  }

  lemma SweepOneMore(m: Table, left: set<string>, k: string, now: int)
    requires k in left && left <= m.Keys
    ensures Step(SweptBut(m, left, now), Sweep(k, now)) == SweptBut(m, left - {k}, now)
  {
    var before, after := SweptBut(m, left, now), SweptBut(m, left - {k}, now);
    assert k in before && before[k] == m[k];
  }

  // ---- The ladder against the history of attempts ----

  /** The attempts made on an account. */
  function History(run: seq<Event>, email: string): (h: seq<Event>)
    ensures forall k :: 0 <= k < |h| ==> h[k].Attempt?
  {
    if run == [] then []
    else
      var e := run[|run| - 1];
      History(run[..|run| - 1], email) + (if e.Attempt? && e.email == email then [e] else [])
  }

  /** Length of the trailing run of failures whose consecutive gaps are at most one hour. */
  function Streak(h: seq<Event>): (n: nat)
    requires forall k :: 0 <= k < |h| ==> h[k].Attempt?
    ensures n <= |h|
    ensures n > 0 ==> !h[|h| - 1].success
  {
    if h == [] || h[|h| - 1].success then 0
    else
      var n := |h| - 1;
      if n > 0 && !h[n - 1].success && h[n].now - h[n - 1].now <= HOUR then Streak(h[..n]) + 1 else 1
  }

  /** The streak has reached five at some point. */
  predicate EverLocked(h: seq<Event>)
    requires forall k :: 0 <= k < |h| ==> h[k].Attempt?
  {
    h != [] && (EverLocked(h[..|h| - 1]) || Streak(h) >= 5)
  }

  /** The last n attempts are failures without a gap over an hour, and there is no longer such stretch. */
  ghost predicate LongestTrailing(h: seq<Event>, n: nat)
    requires n <= |h| && forall k :: 0 <= k < |h| ==> h[k].Attempt?
  {
    var a := |h| - n;
    && (forall k :: a <= k < |h| ==> !h[k].success)
    && (forall k :: a < k < |h| ==> h[k].now - h[k - 1].now <= 3_600_000_000_000)
    && (0 < a < |h| ==> h[a - 1].success || h[a].now - h[a - 1].now > 3_600_000_000_000)
    && (a == |h| > 0 ==> h[a - 1].success)
  }

  lemma OneMoreFailure(h: seq<Event>, n: nat)
    requires h != [] && n < |h| && forall k :: 0 <= k < |h| ==> h[k].Attempt?
    requires LongestTrailing(h[..|h| - 1], n) && !h[|h| - 1].success
    requires n > 0 && h[|h| - 1].now - h[|h| - 2].now <= HOUR
    ensures LongestTrailing(h, n + 1)
  {
  }

  lemma FirstFailure(h: seq<Event>)
    requires h != [] && (forall k :: 0 <= k < |h| ==> h[k].Attempt?) && !h[|h| - 1].success
    requires |h| > 1 ==> h[|h| - 2].success || h[|h| - 1].now - h[|h| - 2].now > HOUR
    ensures LongestTrailing(h, 1)
  {
  }

  /** Streak is the longest trailing stretch of failures with no gap over an hour. */
  lemma {:induction false} StreakIsMaximal(h: seq<Event>)
    requires forall k :: 0 <= k < |h| ==> h[k].Attempt?
    ensures LongestTrailing(h, Streak(h))
  {
    if h != [] && !h[|h| - 1].success {
      var n := |h| - 1;
      if n > 0 && !h[n - 1].success && h[n].now - h[n - 1].now <= HOUR {
        StreakIsMaximal(h[..n]);
        StreakOfFailure(h[..n]);
        OneMoreFailure(h, Streak(h[..n]));
      } else {
        FirstFailure(h);
      }
    }
  }

  lemma StreakOfFailure(h: seq<Event>)
    requires h != [] && (forall k :: 0 <= k < |h| ==> h[k].Attempt?) && !h[|h| - 1].success
    ensures Streak(h) > 0
  {
  }

  /** Tracker and reply of the limiter that never forgets, read off the account's attempts: the counter
      is the streak, the lock is set exactly when a streak reaches five, and the warnings at three and
      four announce exactly what is missing to five. */
  lemma {:induction false} LadderRefinesHistory(run: seq<Event>, email: string)
    ensures var h, m := History(run, email), After(run, false);
            && (email in m <==> h != [])
            && (LockedIn(m, email) <==> EverLocked(h))
            && (h != [] && !EverLocked(h) ==> m[email].failedAttempts == Streak(h))
            && (h != [] && Streak(h) > 0 && !EverLocked(h) ==> m[email].lastFailed == h[|h| - 1].now)
  {
    if run != [] {
      LadderRefinesHistory(run[..|run| - 1], email);
      var past, h := History(run[..|run| - 1], email), History(run, email);
      if h != past {
        assert h[..|past|] == past;
      }
    }
  }

  lemma ReplyRefinesHistory(run: seq<Event>, i: nat)
    requires i < |run| && run[i].Attempt?
    ensures var h := History(run[..i + 1], run[i].email);
            Answer(run, false, i) ==
            if EverLocked(h) then Reply("", true)
            else if Streak(h) == 3 then Reply("2 attempts remaining before lockout", false)
            else if Streak(h) == 4 then Reply("1 attempt remaining before lockout", false)
            else Reply("", false)
  {
    var past := History(run[..i], run[i].email);
    var h := past + [run[i]];
    assert run[..i + 1][..i] == run[..i];
    assert History(run[..i + 1], run[i].email) == h && h[..|past|] == past;
    LadderRefinesHistory(run[..i], run[i].email);
  }

  // ---- Sweeping, as long as it drops no lock ----

  /** Event i is a sweep that forgets a locked account. */
  ghost predicate DropsLock(run: seq<Event>, i: nat)
    requires i < |run|
  {
    var m := After(run[..i], true);
    run[i].Sweep? && LockedIn(m, run[i].email) && Evictable(m[run[i].email], run[i].now)
  }

  ghost predicate SomeEventAfter(run: seq<Event>, t: int) {
    exists i :: 0 <= i < |run| && run[i].now > t
  }

  /** Two tables' records of an account cannot be told apart by any answer. A missing record may stand for one
      whose failures no longer count, if `late` says that their hour is over. */
  ghost predicate AgreeIn(m: Table, n: Table, email: string, late: bool) {
    if email in m then
      && email in n
      && m[email].isLocked == n[email].isLocked
      && m[email].failedAttempts == n[email].failedAttempts
      && (m[email].failedAttempts > 0 ==> m[email].lastFailed == n[email].lastFailed)
    else
      email in n ==> !n[email].isLocked && (n[email].failedAttempts == 0 || late)
  }

  /** Something has happened more than an hour after the last failure that table n knows of. */
  ghost predicate Late(run: seq<Event>, n: Table, email: string) {
    email in n && SomeEventAfter(run, n[email].lastFailed + HOUR)
  }

  ghost predicate Agree(run: seq<Event>, email: string) {
    AgreeIn(After(run, true), After(run, false), email, Late(run, After(run, false), email))
  }

  lemma AttemptAgrees(m: Table, n: Table, email: string, e: Event, late: bool)
    requires e.Attempt? && AgreeIn(m, n, email, late)
    requires late && e.email == email ==> email in n && e.now > n[email].lastFailed + HOUR
    ensures AgreeIn(Step(m, e), Step(n, e), email, late)
    ensures e.email != email ==> (email in Step(n, e) <==> email in n)
    ensures e.email != email && email in n ==> Step(n, e)[email] == n[email]
    ensures e.email == email ==> email in Step(m, e)
  {
  }

  lemma SweepAgrees(m: Table, n: Table, email: string, e: Event, late: bool)
    requires e.Sweep? && AgreeIn(m, n, email, late)
    requires LockedIn(m, email) && e.email == email ==> !Evictable(m[email], e.now)
    ensures AgreeIn(Step(m, e), n, email, late || (email in n && e.now > n[email].lastFailed + HOUR))
  {
  }

  /** The hour stays over. */
  lemma StillLate(run: seq<Event>, n: Table, email: string)
    requires run != [] && Late(run[..|run| - 1], n, email)
    ensures Late(run, n, email)
    ensures Timed(run) && run[|run| - 1].Attempt? ==> run[|run| - 1].now > n[email].lastFailed + HOUR
  {
    var i :| 0 <= i < |run| - 1 && run[..|run| - 1][i].now > n[email].lastFailed + HOUR;
    assert run[i].now > n[email].lastFailed + HOUR;
  }

  lemma AgreeLater(m: Table, n: Table, email: string, late: bool, later: bool)
    requires AgreeIn(m, n, email, late) && (late ==> later)
    ensures AgreeIn(m, n, email, later)
  {
  }

  lemma AgreeStep(run: seq<Event>, email: string)
    requires Timed(run) && run != [] && Agree(run[..|run| - 1], email) && !DropsLock(run, |run| - 1)
    ensures Agree(run, email)
  {
    var k, e := |run| - 1, run[|run| - 1];
    var m, n := After(run[..k], true), After(run[..k], false);
    var late := Late(run[..k], n, email);
    if late {
      StillLate(run, n, email);
    }
    if e.Attempt? {
      AttemptAgrees(m, n, email, e, late);
      AgreeLater(Step(m, e), Step(n, e), email, late && e.email != email, Late(run, Step(n, e), email));
    } else {
      SweepAgrees(m, n, email, e, late);
      if email in n && e.now > n[email].lastFailed + HOUR {
        assert run[k].now > n[email].lastFailed + HOUR;
      }
      AgreeLater(Step(m, e), n, email, late || (email in n && e.now > n[email].lastFailed + HOUR), Late(run, n, email));
    }
  }

  lemma {:induction false} SweepKeepsAgreement(run: seq<Event>, email: string)
    requires Timed(run)
    requires forall i :: 0 <= i < |run| ==> !DropsLock(run, i)
    ensures Agree(run, email)
  {
    if run != [] {
      NoDropInPrefix(run, |run| - 1);
      SweepKeepsAgreement(run[..|run| - 1], email);
      AgreeStep(run, email);
    }
  }

  /** Both limiters agree throughout the run on who is locked. */
  ghost predicate SameLocks(run: seq<Event>) {
    forall k, email :: 0 <= k <= |run| ==>
                         (LockedIn(After(run[..k], true), email) <==> LockedIn(After(run[..k], false), email))
  }

  lemma DropIsVisible(run: seq<Event>, i: nat)
    requires i < |run| && DropsLock(run, i)
    ensures !SameLocks(run)
  {
    var email := run[i].email;
    assert run[..i + 1][..i] == run[..i];
    assert LockedIn(After(run[..i], true), email);
    assert !LockedIn(After(run[..i + 1], true), email);
    assert After(run[..i + 1], false) == After(run[..i], false);
  }

  /** Sweeping is invisible exactly until it forgets a locked account: the limiters agree on who is
      locked throughout a run if and only if no sweep of the run drops a lock. */
  lemma SweepVisibleIffLockDropped(run: seq<Event>)
    requires Timed(run)
    ensures SameLocks(run) <==> forall i :: 0 <= i < |run| ==> !DropsLock(run, i)
  {
    if i :| 0 <= i < |run| && DropsLock(run, i) {
      DropIsVisible(run, i);
    } else {
      forall k, email | 0 <= k <= |run|
        ensures LockedIn(After(run[..k], true), email) <==> LockedIn(After(run[..k], false), email)
      {
        NoDropInPrefix(run, k);
        SweepKeepsAgreement(run[..k], email);
      }
    }
  }

  lemma NoDropInPrefix(run: seq<Event>, k: nat)
    requires k <= |run| && forall i :: 0 <= i < |run| ==> !DropsLock(run, i)
    ensures forall i :: 0 <= i < k ==> !DropsLock(run[..k], i)
  {
    forall i | 0 <= i < k ensures !DropsLock(run[..k], i) {
      assert run[..k][..i] == run[..i];
      assert !DropsLock(run, i);
    }
  }

  /** Until then every attempt also gets the same reply. */
  lemma SweepKeepsReplies(run: seq<Event>, i: nat)
    requires Timed(run) && i < |run| && run[i].Attempt?
    requires forall k :: 0 <= k < i ==> !DropsLock(run, k)
    ensures Answer(run, true, i) == Answer(run, false, i)
  {
    forall k | 0 <= k < i ensures !DropsLock(run[..i], k) {
      assert run[..i][..k] == run[..k];
      assert !DropsLock(run, k);
    }
    var email := run[i].email;
    SweepKeepsAgreement(run[..i], email);
    var m, n := After(run[..i], true), After(run[..i], false);
    if email !in m && email in n && n[email].failedAttempts > 0 {
      var k :| 0 <= k < i && run[..i][k].now > n[email].lastFailed + HOUR;
      assert run[k].now <= run[i].now;
    }
  }

  // ---- When the sweep forgets ----

  /** Event j set the clock of the account's tracker: it found no tracker, or it failed and found no lock. */
  ghost predicate Stamps(run: seq<Event>, email: string, j: nat)
    requires j < |run|
  {
    var m := After(run[..j], true);
    run[j].Attempt? && run[j].email == email && (email !in m || (!run[j].success && !m[email].isLocked))
  }

  ghost predicate LastStamp(run: seq<Event>, email: string, j: nat)
    requires j < |run|
  {
    Stamps(run, email, j) && forall k :: j < k < |run| ==> !Stamps(run, email, k)
  }

  lemma StampsInPrefix(run: seq<Event>, email: string, n: nat, j: nat)
    requires j < n <= |run|
    ensures Stamps(run[..n], email, j) <==> Stamps(run, email, j)
  {
    assert run[..n][..j] == run[..j];
  }

  lemma {:induction false} TrackerHasStamp(run: seq<Event>, email: string) returns (j: nat)
    requires email in After(run, true)
    ensures j < |run| && LastStamp(run, email, j) && After(run, true)[email].lastFailed == run[j].now
  {
    var n := |run| - 1;
    if Stamps(run, email, n) {
      j := n;
    } else {
      j := TrackerHasStamp(run[..n], email);
      StampsInPrefix(run, email, n, j);
      forall k | j < k < n ensures !Stamps(run, email, k) {
        StampsInPrefix(run, email, n, k);
      }
    }
  }

  /** The sweep forgets an account's tracker exactly if its clock was set more than an hour before, locked or
      not; everybody else's stays. */
  lemma EvictedExactlyAfterAnHour(run: seq<Event>, email: string, now: int) returns (j: nat)
    requires email in After(run, true)
    ensures j < |run| && LastStamp(run, email, j)
    ensures email !in After(run + [Sweep(email, now)], true) <==> now - run[j].now > 3_600_000_000_000
    ensures forall other :: other != email ==>
                              (other in After(run + [Sweep(email, now)], true) <==> other in After(run, true))
  {
    assert (run + [Sweep(email, now)])[..|run|] == run;
    j := TrackerHasStamp(run, email);
  }

  // ---- How long a lock lasts under the sweep ----

  /** Event j is the failed attempt that locked the account, and the lock has held up to event i. */
  ghost predicate LockedBy(run: seq<Event>, email: string, j: nat, i: nat)
    requires j < i <= |run|
  {
    && run[j].Attempt? && run[j].email == email && !run[j].success
    && !LockedIn(After(run[..j], true), email)
    && forall k :: j < k <= i ==> LockedIn(After(run[..k], true), email)
                                  && After(run[..k], true)[email].lastFailed == run[j].now
  }

  lemma {:induction false} LockHasCause(run: seq<Event>, email: string, i: nat) returns (j: nat)
    requires i <= |run| && LockedIn(After(run[..i], true), email)
    ensures j < i && LockedBy(run, email, j, i)
    ensures After(run[..i], true)[email].lastFailed == run[j].now
  {
    assert run[..i][..i - 1] == run[..i - 1];
    if LockedIn(After(run[..i - 1], true), email) {
      j := LockHasCause(run, email, i - 1);
    } else {
      j := i - 1;
    }
  }

  /** A lock is only ever dropped more than one hour after the failure that set it. */
  lemma LockLastsAnHour(run: seq<Event>, i: nat) returns (j: nat)
    requires i < |run| && DropsLock(run, i)
    ensures j < i && LockedBy(run, run[i].email, j, i)
    ensures run[i].now - run[j].now > 3_600_000_000_000
  {
    j := LockHasCause(run, run[i].email, i);
  }

  /** Within `period` of the start, or of the latest sweep of the account, at every event. */
  ghost predicate SweptRegularly(run: seq<Event>, email: string, period: nat) {
    forall i :: 0 <= i < |run| && run[i].now - run[0].now > period ==> RecentlySwept(run, email, period, i)
  }

  ghost predicate RecentlySwept(run: seq<Event>, email: string, period: nat, i: nat)
    requires i < |run|
  {
    exists p :: 0 <= p <= i && run[p].Sweep? && run[p].email == email && run[i].now - run[p].now <= period
  }

  /** Every sweep of the account strictly between j and i comes within an hour of event j. */
  ghost predicate SweptWithinAnHour(run: seq<Event>, email: string, j: nat, i: nat)
    requires j < i <= |run|
  {
    forall p :: j < p < i && run[p].Sweep? && run[p].email == email
                ==> run[p].now - run[j].now <= 3_600_000_000_000
  }

  lemma LockedStep(run: seq<Event>, email: string, j: nat, i: nat)
    requires j < i < |run| && LockedBy(run, email, j, i)
    ensures LockedBy(run, email, j, i + 1)
            <==> !(run[i].Sweep? && run[i].email == email && run[i].now - run[j].now > HOUR)
  {
    assert run[..i + 1][..i] == run[..i];
    var m := After(run[..i], true);
    assert LockedIn(m, email) && m[email].lastFailed == run[j].now;
    assert After(run[..i + 1], true) == Step(m, run[i]);
  }

  /** A lock set by event j is still in force, with its time, exactly as long as no sweep of the account has
      come more than an hour after it: the sweep times alone decide. */
  lemma {:induction false} LockedExactlyUntilSwept(run: seq<Event>, email: string, j: nat, i: nat)
    requires j < i <= |run| && LockedBy(run, email, j, j + 1)
    ensures LockedBy(run, email, j, i) <==> SweptWithinAnHour(run, email, j, i)
    decreases i
  {
    if i > j + 1 {
      LockedExactlyUntilSwept(run, email, j, i - 1);
      if LockedBy(run, email, j, i - 1) {
        LockedStep(run, email, j, i - 1);
      } else {
        assert !SweptWithinAnHour(run, email, j, i);
      }
    }
  }

  lemma SweepEndsOldLock(run: seq<Event>, email: string, j: nat, p: nat, i: nat)
    requires j < p < i <= |run| && LockedBy(run, email, j, i) && run[p].Sweep? && run[p].email == email
    ensures run[p].now - run[j].now <= HOUR
  {
    LockedExactlyUntilSwept(run, email, j, i);
  }

  lemma LockIsYoung(run: seq<Event>, email: string, period: nat, j: nat, i: nat)
    requires Timed(run) && j <= i < |run| && LockedBy(run, email, j, i + 1)
    requires run[i].now - run[0].now > period ==> RecentlySwept(run, email, period, i)
    ensures run[i].now - run[j].now <= HOUR + period
  {
    if run[i].now - run[0].now > period {
      var p :| 0 <= p <= i && run[p].Sweep? && run[p].email == email && run[i].now - run[p].now <= period;
      if j < p {
        SweepEndsOldLock(run, email, j, p, i + 1);
      } else {
        assert run[p].now <= run[j].now;
      }
    } else {
      assert run[0].now <= run[j].now;
    }
  }

  /** With a sweep reaching the account at least every `period` no account stays locked longer than an hour
      and that period after the failure that locked it; with the loop's five minutes, 1h05m. */
  lemma LockIsGoneAfterAnHourAndPeriod(run: seq<Event>, email: string, period: nat, i: nat) returns (j: nat)
    requires Timed(run) && SweptRegularly(run, email, period)
    requires i < |run| && LockedIn(After(run[..i + 1], true), email)
    ensures j <= i && LockedBy(run, email, j, i + 1)
    ensures run[i].now - run[j].now <= 3_600_000_000_000 + period
  {
    j := LockHasCause(run, email, i + 1);
    LockIsYoung(run, email, period, j, i);
  }

  // ---- How many failures an hour can hold ----

  /** The failures of an account in the closed span of an hour from a that found it unlocked. */
  function CountedIn(run: seq<Event>, sweeping: bool, email: string, a: int): (c: nat) {
    if run == [] then 0
    else
      var n := |run| - 1;
      var e := run[n];
      CountedIn(run[..n], sweeping, email, a)
      + (if e.Attempt? && e.email == email && !e.success && a <= e.now <= a + 3_600_000_000_000
            && !LockedIn(After(run[..n], sweeping), email) then 1 else 0)
  }

  /** No attempt that finds the account unlocked succeeds within the hour from a. */
  ghost predicate NoSuccessIn(run: seq<Event>, sweeping: bool, email: string, a: int) {
    forall i :: 0 <= i < |run| && run[i].Attempt? && run[i].email == email && run[i].success
                && !LockedIn(After(run[..i], sweeping), email)
                ==> !(a <= run[i].now <= a + 3_600_000_000_000)
  }

  lemma NoSuccessBefore(run: seq<Event>, sweeping: bool, email: string, a: int, n: nat)
    requires NoSuccessIn(run, sweeping, email, a) && n <= |run|
    ensures NoSuccessIn(run[..n], sweeping, email, a)
  {
    forall i | 0 <= i < n && run[..n][i].Attempt? && run[..n][i].email == email && run[..n][i].success
               && !LockedIn(After(run[..n][..i], sweeping), email)
      ensures !(a <= run[..n][i].now <= a + HOUR)
    {
      assert run[..n][..i] == run[..i];
    }
  }

  /** What the tracker knows while the hour lasts: it has counted every one of these failures. */
  ghost predicate Remembered(run: seq<Event>, sweeping: bool, email: string, a: int, c: nat) {
    var m := After(run, sweeping);
    && email in m && m[email].failedAttempts >= c && a <= m[email].lastFailed <= a + HOUR
    && exists i :: 0 <= i < |run| && run[i].now >= a
  }

  ghost predicate FiveLock(m: Table, email: string) {
    email in m && m[email].failedAttempts >= 5 ==> m[email].isLocked
  }

  lemma {:induction false} AlwaysFiveLock(run: seq<Event>, sweeping: bool, email: string)
    ensures FiveLock(After(run, sweeping), email)
  {
    if run != [] {
      AlwaysFiveLock(run[..|run| - 1], sweeping, email);
    }
  }

  lemma HourStep(run: seq<Event>, sweeping: bool, email: string, a: int)
    requires Timed(run) && NoSuccessIn(run, sweeping, email, a) && run != []
    requires var past := run[..|run| - 1];
             var c := CountedIn(past, sweeping, email, a);
             c <= 5 && (c == 0 || SomeEventAfter(past, a + HOUR) || Remembered(past, sweeping, email, a, c))
    ensures var c := CountedIn(run, sweeping, email, a);
            c <= 5 && (c == 0 || SomeEventAfter(run, a + HOUR) || Remembered(run, sweeping, email, a, c))
  {
    var n, e := |run| - 1, run[|run| - 1];
    var past := run[..n];
    AlwaysFiveLock(past, sweeping, email);
    if SomeEventAfter(past, a + HOUR) {
      var i :| 0 <= i < n && past[i].now > a + HOUR;
      assert run[i].now > a + HOUR;
    } else if e.now > a + HOUR {
      assert run[n].now > a + HOUR;
    } else {
      assert run[n] == e;
      if CountedIn(past, sweeping, email, a) > 0 {
        var i :| 0 <= i < n && past[i].now >= a;
        assert run[i].now >= a;
      }
    }
  }

  lemma {:induction false} HourInvariant(run: seq<Event>, sweeping: bool, email: string, a: int)
    requires Timed(run) && NoSuccessIn(run, sweeping, email, a)
    ensures var c := CountedIn(run, sweeping, email, a);
            c <= 5 && (c == 0 || SomeEventAfter(run, a + HOUR) || Remembered(run, sweeping, email, a, c))
  {
    if run != [] {
      NoSuccessBefore(run, sweeping, email, a, |run| - 1);
      HourInvariant(run[..|run| - 1], sweeping, email, a);
      HourStep(run, sweeping, email, a);
    }
  }

  /** However attempts and sweeps fall, a closed hour without an accepted success sees at most five failures that found
      the account unlocked. */
  lemma FiveFailuresAnHour(run: seq<Event>, sweeping: bool, email: string, a: int)
    requires Timed(run) && NoSuccessIn(run, sweeping, email, a)
    ensures CountedIn(run, sweeping, email, a) <= 5
  {
    HourInvariant(run, sweeping, email, a);
  }

  // ---- A lock is not permanent ----

  /** n failures, one tick apart. */
  function Failing(email: string, n: nat): (run: seq<Event>)
    ensures |run| == n && forall i :: 0 <= i < n ==> run[i] == Attempt(email, false, i)
  {
    seq(n, i requires 0 <= i < n => Attempt(email, false, i))
  }

  lemma {:induction false} FailingTable(email: string, n: nat, sweeping: bool)
    requires n <= 5
    ensures After(Failing(email, n), sweeping) == if n == 0 then map[] else map[email := AccountState(n, n - 1, n == 5)]
    ensures sweeping ==> CountedIn(Failing(email, n), true, email, 0) == n
  {
    if n > 0 {
      assert Failing(email, n)[..n - 1] == Failing(email, n - 1);
      FailingTable(email, n - 1, sweeping);
    }
  }

  /** Five failures in a row do find the account unlocked. */
  lemma FiveAreCounted(email: string)
    ensures var run := Failing(email, 5);
            Timed(run) && NoSuccessIn(run, true, email, 0) && CountedIn(run, true, email, 0) == 5
  {
    FailingTable(email, 5, true);
  }

  /** Five failures lock an account; a sweep a little over an hour later unlocks it. */
  lemma LockIsNotPermanent(email: string) returns (run: seq<Event>)
    ensures Timed(run) && |run| == 6
    ensures LockedIn(After(run[..5], true), email) && !LockedIn(After(run, true), email)
    ensures LockedIn(After(run, false), email)
  {
    var five := Failing(email, 5);
    FailingTable(email, 5, true);
    FailingTable(email, 5, false);
    run := five + [Sweep(email, HOUR + 5)];
    assert run[..5] == five;
  }
}
