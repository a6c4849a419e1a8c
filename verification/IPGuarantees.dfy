/** What the per-IP limiter promises over whole runs, with or without the sweep. */
module IPGuarantees {
  import opened Clock
  import opened FixedWindow
  import opened IPHistory

  // ---- Events of a run against positions in a history ----

  lemma {:induction false} HistoryPrefix(run: seq<Event>, ip: string, n: nat)
    requires n <= |run|
    ensures |History(run[..n], ip)| <= |History(run, ip)|
    ensures History(run, ip)[..|History(run[..n], ip)|] == History(run[..n], ip)
  {
    if n == |run| {
      assert run[..n] == run;
    } else {
      assert run[..|run| - 1][..n] == run[..n];
      HistoryPrefix(run[..|run| - 1], ip, n);
    }
  }

  /** The event that made request k of an IP. */
  lemma {:induction false} EventOf(run: seq<Event>, ip: string, k: nat) returns (i: nat)
    requires k < |History(run, ip)|
    ensures i < |run| && run[i] == Check(ip, History(run, ip)[k])
    ensures History(run[..i + 1], ip) == History(run, ip)[..k + 1]
  {
    var n := |run| - 1;
    if k < |History(run[..n], ip)| {
      i := EventOf(run[..n], ip, k);
      assert run[..n][..i + 1] == run[..i + 1];
      HistoryPrefix(run, ip, n);
      assert History(run, ip)[..k + 1] == History(run[..n], ip)[..k + 1];
    } else {
      i := n;
      assert run[..n + 1] == run;
    }
  }

  /** When the last event of a run is a request that is allowed. */
  lemma AllowedIffAdmitted(run: seq<Event>, sweeping: bool)
    requires Timed(run) && run != [] && run[|run| - 1].Check?
    ensures var e, n := run[|run| - 1], |run| - 1;
            var ts := History(run, e.ip);
            && ts == History(run[..n], e.ip) + [e.now]
            && (Answer(run, sweeping, n) == Allowed <==> !EverOver(ts) && Load(ts, MINUTE) <= MAX_PER_MINUTE)
  {
    var n := |run| - 1;
    AnswerRefinesHistory(run, sweeping, n);
    assert run[..n + 1] == run;
    TrackerRefinesHistory(History(run, run[n].ip));
  }

  // ---- Throttling ----

  /** The number of requests of an IP in the closed span [a, a + d] that the limiter allowed. */
  function AllowedIn(run: seq<Event>, sweeping: bool, ip: string, a: int, d: nat): (c: nat) {
    if run == [] then 0
    else
      var n := |run| - 1;
      AllowedIn(run[..n], sweeping, ip, a, d)
      + (if run[n].Check? && run[n].ip == ip && a <= run[n].now <= a + d && Answer(run, sweeping, n) == Allowed
         then 1 else 0)
  }

  lemma AllowedInStep(run: seq<Event>, sweeping: bool, ip: string, a: int, d: nat)
    requires Timed(run) && run != []
    ensures var n := |run| - 1;
            var ts, past, before := History(run, ip), History(run[..n], ip), AllowedIn(run[..n], sweeping, ip, a, d);
            if ts == past then AllowedIn(run, sweeping, ip, a, d) == before
            else
              && |ts| == |past| + 1 && ts[..|past|] == past
              && AllowedIn(run, sweeping, ip, a, d)
                 <= before + (if a <= ts[|past|] <= a + d && Load(ts, MINUTE) <= MAX_PER_MINUTE then 1 else 0)
  {
    var n, e := |run| - 1, run[|run| - 1];
    if e.Check? && e.ip == ip {
      AllowedIffAdmitted(run, sweeping);
      assert History(run, ip)[..|History(run[..n], ip)|] == History(run[..n], ip);
    } else {
      assert History(run, ip) == History(run[..n], ip);
    }
  }

  function Clamp(lo: int, j: int, hi: int): int {
    if j < lo then lo else if j > hi then hi else j
  }

  lemma AdmittedStep(a: int, d: nat, ts: seq<int>, lo: nat, hi: nat, h: nat)
    requires lo <= hi <= |ts| && h < |ts|
    requires lo <= h < hi <==> a <= ts[h] <= a + d
    ensures Admitted(ts, MINUTE, MAX_PER_MINUTE, lo, Clamp(lo, h + 1, hi))
            == Admitted(ts, MINUTE, MAX_PER_MINUTE, lo, Clamp(lo, h, hi))
               + (if a <= ts[h] <= a + d && Load(ts[..h + 1], MINUTE) <= MAX_PER_MINUTE then 1 else 0)
  {
  }

  /** One event's share, on the history. */
  lemma AllowedStep(a: int, d: nat, ts: seq<int>, lo: nat, hi: nat, past: seq<int>, now: seq<int>,
                    before: nat, after: nat)
    requires lo <= hi <= |ts| && |now| <= |ts| && ts[..|now|] == now
    requires forall k :: 0 <= k < |ts| ==> (lo <= k < hi <==> a <= ts[k] <= a + d)
    requires if now == past then after == before
             else |now| == |past| + 1
                  && after <= before + (if a <= now[|past|] <= a + d && Load(now, MINUTE) <= MAX_PER_MINUTE
                                        then 1 else 0)
    requires before <= Admitted(ts, MINUTE, MAX_PER_MINUTE, lo, Clamp(lo, |past|, hi))
    ensures after <= Admitted(ts, MINUTE, MAX_PER_MINUTE, lo, Clamp(lo, |now|, hi))
  {
    if now != past {
      assert ts[|past|] == now[|past|];
      AdmittedStep(a, d, ts, lo, hi, |past|);
    }
  }

  /** The same count on the history: only requests that found the minute counter at most 5 are in it. */
  lemma {:induction false} AllowedAreAdmitted(run: seq<Event>, sweeping: bool, ip: string, a: int, d: nat,
                                              ts: seq<int>, lo: nat, hi: nat)
    requires Timed(run) && lo <= hi <= |ts|
    requires |History(run, ip)| <= |ts| && ts[..|History(run, ip)|] == History(run, ip)
    requires forall k :: 0 <= k < |ts| ==> (lo <= k < hi <==> a <= ts[k] <= a + d)
    ensures AllowedIn(run, sweeping, ip, a, d)
            <= Admitted(ts, MINUTE, MAX_PER_MINUTE, lo, Clamp(lo, |History(run, ip)|, hi))
  {
    if run != [] {
      var init := run[..|run| - 1];
      var past, now := History(init, ip), History(run, ip);
      AllowedInStep(run, sweeping, ip, a, d);
      assert ts[..|now|][..|past|] == ts[..|past|];
      AllowedAreAdmitted(init, sweeping, ip, a, d, ts, lo, hi);
      AllowedStep(a, d, ts, lo, hi, past, now, AllowedIn(init, sweeping, ip, a, d), AllowedIn(run, sweeping, ip, a, d));
    }
  }

  /** However its requests fall, no IP is allowed more than 9 times in any closed minute. */
  lemma ThrottleUpperBound(run: seq<Event>, sweeping: bool, ip: string, a: int)
    requires Timed(run)
    ensures AllowedIn(run, sweeping, ip, a, 60_000_000_000) <= 9
  {
    var ts := History(run, ip);
    HistorySorted(run, ip);
    var lo, hi := CountIsInterval(ts, a, MINUTE);
    AllowedAreAdmitted(run, sweeping, ip, a, MINUTE, ts, lo, hi);
    if lo < hi {
      AdmittedInSpan(ts, MINUTE, MAX_PER_MINUTE, lo, hi);
    }
  }

  /** Five requests a minute leave five minutes far below the block limit. */
  lemma MinuteSparseIsFiveMinuteSparse(ts: seq<int>)
    requires Sorted(ts) && Sparse(ts, MAX_PER_MINUTE, MINUTE)
    ensures Sparse(ts, MAX_PER_FIVE_MINUTES, FIVE_MINUTES)
  {
    forall i, j | 0 <= i && i + MAX_PER_FIVE_MINUTES == j && j < |ts| ensures ts[j] - ts[i] > FIVE_MINUTES {
      assert ts[i + 5] - ts[i] > MINUTE;
      assert ts[i + 10] - ts[i + 5] > MINUTE;
      assert ts[i + 15] - ts[i + 10] > MINUTE;
      assert ts[i + 20] - ts[i + 15] > MINUTE;
      assert ts[i + 25] - ts[i + 20] > MINUTE;
      assert ts[i + 25] <= ts[j];
    }
  }

  lemma SparseIsNeverOver(ts: seq<int>, k: nat)
    requires Sorted(ts) && Sparse(ts, MAX_PER_FIVE_MINUTES, FIVE_MINUTES) && k <= |ts|
    ensures !EverOver(ts[..k])
  {
    if EverOver(ts[..k]) {
      var m := EverOverWitness(ts[..k]);
      assert ts[..k][..m] == ts[..m];
      SparseNeverOverloads(ts, MAX_PER_FIVE_MINUTES, FIVE_MINUTES, m);
    }
  }

  /** An IP with at most 5 requests in every closed minute is never refused. */
  lemma ModestIsNeverRefused(run: seq<Event>, sweeping: bool, ip: string)
    requires Timed(run) && AtMost(History(run, ip), 5, 60_000_000_000)
    ensures forall i :: 0 <= i < |run| && run[i].Check? && run[i].ip == ip ==> Answer(run, sweeping, i) == Allowed
  {
    var ts := History(run, ip);
    HistorySorted(run, ip);
    AtMostIsSparse(ts, MAX_PER_MINUTE, MINUTE);
    MinuteSparseIsFiveMinuteSparse(ts);
    forall i | 0 <= i < |run| && run[i].Check? && run[i].ip == ip ensures Answer(run, sweeping, i) == Allowed {
      AnswerRefinesHistory(run, sweeping, i);
      HistoryPrefix(run, ip, i + 1);
      var k := |History(run[..i + 1], ip)|;
      TrackerRefinesHistory(ts[..k]);
      SparseIsNeverOver(ts, k);
      SparseNeverOverloads(ts, MAX_PER_MINUTE, MINUTE, k);
    }
  }

  // ---- Blocking ----

  /** An IP with at most 1000 requests in every closed five minutes is never blocked. */
  lemma BusyIsNeverBlocked(run: seq<Event>, sweeping: bool, ip: string)
    requires Timed(run) && AtMost(History(run, ip), 1000, 300_000_000_000)
    ensures forall i :: 0 <= i < |run| && run[i].Check? && run[i].ip == ip ==> Answer(run, sweeping, i) != Blocked
  {
    var ts := History(run, ip);
    HistorySorted(run, ip);
    AtMostIsSparse(ts, MAX_PER_FIVE_MINUTES, FIVE_MINUTES);
    forall i | 0 <= i < |run| && run[i].Check? && run[i].ip == ip ensures Answer(run, sweeping, i) != Blocked {
      AnswerRefinesHistory(run, sweeping, i);
      HistoryPrefix(run, ip, i + 1);
      var k := |History(run[..i + 1], ip)|;
      TrackerRefinesHistory(ts[..k]);
      SparseIsNeverOver(ts, k);
    }
  }

  lemma OverloadBlocks(ts: seq<int>)
    requires |ts| > 0 && Load(ts, FIVE_MINUTES) > MAX_PER_FIVE_MINUTES
    ensures VerdictOf(ts) == Blocked
  {
    assert ts[..|ts|] == ts;
    EverOverPrefix(ts, |ts|);
    TrackerRefinesHistory(ts);
  }

  lemma DenseSpan(ts: seq<int>, a: int) returns (k: nat)
    requires Sorted(ts) && Count(ts, a, FIVE_MINUTES) >= 2 * MAX_PER_FIVE_MINUTES
    ensures 0 < k <= |ts| && a <= ts[k - 1] <= a + FIVE_MINUTES
    ensures Load(ts[..k], FIVE_MINUTES) > MAX_PER_FIVE_MINUTES
  {
    var lo, hi := CountIsInterval(ts, a, FIVE_MINUTES);
    assert a <= ts[lo] && ts[lo + 2 * MAX_PER_FIVE_MINUTES - 1] <= a + FIVE_MINUTES;
    k := DenseOverloads(ts, MAX_PER_FIVE_MINUTES, FIVE_MINUTES, lo);
  }

  lemma OverloadedRequestIsBlocked(run: seq<Event>, sweeping: bool, i: nat, ts: seq<int>)
    requires Timed(run) && i < |run| && run[i].Check?
    requires ts == History(run[..i + 1], run[i].ip)
    requires |ts| > 0 && Load(ts, FIVE_MINUTES) > MAX_PER_FIVE_MINUTES
    ensures Answer(run, sweeping, i) == Blocked
  {
    OverloadBlocks(ts);
    AnswerRefinesHistory(run, sweeping, i);
  }

  /** 2000 requests in one closed five-minute span get the IP blocked by one of them. */
  lemma FloodIsBlocked(run: seq<Event>, sweeping: bool, ip: string, a: int) returns (i: nat)
    requires Timed(run) && Count(History(run, ip), a, 300_000_000_000) >= 2000
    ensures i < |run| && run[i].Check? && run[i].ip == ip && a <= run[i].now <= a + 300_000_000_000
    ensures Answer(run, sweeping, i) == Blocked
  {
    HistorySorted(run, ip);
    var k := DenseSpan(History(run, ip), a);
    i := EventOf(run, ip, k - 1);
    OverloadedRequestIsBlocked(run, sweeping, i, History(run, ip)[..k]);
  }

  /** A block is for ever: every later request of that IP is refused, and no sweep drops its tracker. */
  lemma BlockIsPermanent(run: seq<Event>, sweeping: bool, i: nat, j: nat)
    requires Timed(run) && i < j <= |run| && run[i].Check? && Answer(run, sweeping, i) == Blocked
    ensures run[i].ip in After(run[..j], sweeping) && After(run[..j], sweeping)[run[i].ip].isBlocked
    ensures j < |run| && run[j].Check? && run[j].ip == run[i].ip ==> Answer(run, sweeping, j) == Blocked
  {
    var ip := run[i].ip;
    AnswerRefinesHistory(run, sweeping, i);
    var early, late := History(run[..i + 1], ip), History(run[..j], ip);
    TrackerRefinesHistory(early);
    assert run[..j][..i + 1] == run[..i + 1];
    HistoryPrefix(run[..j], ip, i + 1);
    EverOverPrefix(late, |early|);
    TrackerRefinesHistory(late);
    RunRefinesHistory(run[..j], ip, sweeping);
  }

  // ---- Neither 9 nor 2000 can be improved ----

  function Requests(ip: string, ts: seq<int>): seq<Event> {
    seq(|ts|, i requires 0 <= i < |ts| => Check(ip, ts[i]))
  }

  lemma {:induction false} RequestsHistory(ip: string, ts: seq<int>)
    ensures History(Requests(ip, ts), ip) == ts
  {
    if ts != [] {
      var n := |ts| - 1;
      assert Requests(ip, ts)[..n] == Requests(ip, ts[..n]);
      RequestsHistory(ip, ts[..n]);
    }
  }

  lemma RequestAnswer(ip: string, ts: seq<int>, sweeping: bool, i: nat)
    requires Sorted(ts) && i < |ts|
    ensures Timed(Requests(ip, ts)) && Answer(Requests(ip, ts), sweeping, i) == VerdictOf(ts[..i + 1])
  {
    var run := Requests(ip, ts);
    assert run[..i + 1] == Requests(ip, ts[..i + 1]);
    RequestsHistory(ip, ts[..i + 1]);
    AnswerRefinesHistory(run, sweeping, i);
  }

  /** No request of a straddling burst finds its own counter over the limit. */
  lemma StraddleNeverOver(l: nat, k: nat)
    requires 1 <= l <= MAX_PER_FIVE_MINUTES && k <= 2 * l
    requires l == MAX_PER_FIVE_MINUTES || 2 * l <= MAX_PER_FIVE_MINUTES
    ensures !EverOver(Straddle(l, if l == MAX_PER_FIVE_MINUTES then FIVE_MINUTES else MINUTE)[..k])
  {
    var ts := Straddle(l, if l == MAX_PER_FIVE_MINUTES then FIVE_MINUTES else MINUTE);
    if EverOver(ts[..k]) {
      var m := EverOverWitness(ts[..k]);
      assert ts[..k][..m] == ts[..m];
      if l == MAX_PER_FIVE_MINUTES {
        StraddleAdmitted(l, FIVE_MINUTES, m);
      }
    }
  }

  /** A run in which 9 of an IP's requests are allowed within one tick of the clock. */
  lemma NineIsReached(ip: string) returns (run: seq<Event>)
    ensures Timed(run) && |run| == 10 && run[9].now - run[1].now <= 1
    ensures forall i :: 0 <= i < 10 ==> run[i].Check? && run[i].ip == ip && Answer(run, true, i) == Allowed
  {
    var ts := Straddle(MAX_PER_MINUTE, MINUTE);
    run := Requests(ip, ts);
    forall i | 0 <= i < 10 ensures Answer(run, true, i) == Allowed {
      StraddleAdmitted(MAX_PER_MINUTE, MINUTE, i + 1);
      RequestAnswer(ip, ts, true, i);
      StraddleNeverOver(MAX_PER_MINUTE, i + 1);
      TrackerRefinesHistory(ts[..i + 1]);
    }
    StraddleAdmitted(MAX_PER_MINUTE, MINUTE, 1);
    RequestAnswer(ip, ts, true, 0);
  }

  /** A run in which 1999 requests of an IP within one tick of the clock do not get it blocked. */
  lemma OneLessIsNotBlocked(ip: string) returns (run: seq<Event>)
    ensures Timed(run) && |run| == 2000 && run[1999].now - run[1].now <= 1
    ensures forall i :: 0 <= i < 2000 ==> run[i].Check? && run[i].ip == ip && Answer(run, true, i) != Blocked
  {
    var ts := Straddle(MAX_PER_FIVE_MINUTES, FIVE_MINUTES);
    run := Requests(ip, ts);
    forall i | 0 <= i < 2000 ensures Answer(run, true, i) != Blocked {
      StraddleAdmitted(MAX_PER_FIVE_MINUTES, FIVE_MINUTES, i + 1);
      RequestAnswer(ip, ts, true, i);
      StraddleNeverOver(MAX_PER_FIVE_MINUTES, i + 1);
      TrackerRefinesHistory(ts[..i + 1]);
    }
    StraddleAdmitted(MAX_PER_FIVE_MINUTES, FIVE_MINUTES, 1);
    RequestAnswer(ip, ts, true, 0);
  }
}
