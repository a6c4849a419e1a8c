/** The per-IP half of the rate limiter as a state machine over timed events, and what its answers
    mean in terms of the requests each IP has made. Times are nanoseconds on one clock. */
module IPHistory {
  import opened Clock
  import opened FixedWindow

  const FIVE_MINUTES: nat := 5 * MINUTE
  const TEN_MINUTES: nat := 10 * MINUTE
  const MAX_PER_FIVE_MINUTES: nat := 1000
  const MAX_PER_MINUTE: nat := 5

  /** The contents of one tracker. */
  datatype IPState = IPState(
    window5MinStart: int,
    window1MinStart: int,
    reqCount1Min: nat,
    reqCount5Min: nat,
    isBlocked: bool,
    lastActive: int)

  datatype Verdict = Allowed | Throttled | Blocked

  type Table = map<string, IPState>

  function NewTracker(now: int): IPState {
    IPState(now, now, 0, 0, false, now)
  }

  /** One request charged to a tracker. */
  function Touch(s: IPState, now: int): (IPState, Verdict) {
    if s.isBlocked then (s.(lastActive := now), Blocked)
    else
      var (start5, count5) :=
        if now - s.window5MinStart > FIVE_MINUTES then (now, 0) else (s.window5MinStart, s.reqCount5Min);
      var (start1, count1) :=
        if now - s.window1MinStart > MINUTE then (now, 0) else (s.window1MinStart, s.reqCount1Min);
      var over := count5 + 1 > MAX_PER_FIVE_MINUTES;
      (IPState(start5, start1, count1 + 1, count5 + 1, over, now),
       if over then Blocked else if count1 + 1 > MAX_PER_MINUTE then Throttled else Allowed)
  }

  function Lookup(m: Table, ip: string, now: int): IPState {
    if ip in m then m[ip] else NewTracker(now)
  }

  predicate Evictable(s: IPState, now: int) {
    !s.isBlocked && now - s.lastActive > TEN_MINUTES
  }

  datatype Event =
    | Check(ip: string, now: int)
    | Sweep(ip: string, now: int)   // the sweep reaching one key of the map

  function Step(m: Table, e: Event): Table {
    match e
    case Check(ip, now) => m[ip := Touch(Lookup(m, ip, now), now).0]
    case Sweep(ip, now) => if ip in m && Evictable(m[ip], now) then m - {ip} else m
  }

  /** The map of trackers after a run. Without `sweeping` it is the limiter that never forgets. */
  function After(run: seq<Event>, sweeping: bool): Table {
    if run == [] then map[]
    else
      var m := After(run[..|run| - 1], sweeping);
      var e := run[|run| - 1];
      if e.Sweep? && !sweeping then m else Step(m, e)
  }

  /** The answer given to the request that is event i of the run. */
  function Answer(run: seq<Event>, sweeping: bool, i: nat): Verdict
    requires i < |run| && run[i].Check?
  {
    Touch(Lookup(After(run[..i], sweeping), run[i].ip, run[i].now), run[i].now).1
  }

  /** A request is never earlier than an event before it; a sweep may use a time read earlier. */
  ghost predicate Timed(run: seq<Event>) {
    forall i, j :: 0 <= i < j < |run| && run[j].Check? ==> run[i].now <= run[j].now
  }

  /** The times of the requests an IP has made. */
  function History(run: seq<Event>, ip: string): (ts: seq<int>) {
    if run == [] then []
    else
      var e := run[|run| - 1];
      History(run[..|run| - 1], ip) + (if e.Check? && e.ip == ip then [e.now] else [])
  }

  // ---- One tracker that is never forgotten, as a function of the request times ----

  function StateOf(ts: seq<int>): IPState
    requires |ts| > 0
  {
    var n := |ts| - 1;
    Touch(if n == 0 then NewTracker(ts[0]) else StateOf(ts[..n]), ts[n]).0
  }

  function VerdictOf(ts: seq<int>): Verdict
    requires |ts| > 0
  {
    var n := |ts| - 1;
    Touch(if n == 0 then NewTracker(ts[0]) else StateOf(ts[..n]), ts[n]).1
  }

  /** Some request, the last or an earlier one, found the five-minute counter over its limit. */
  predicate EverOver(ts: seq<int>) {
    |ts| > 0 && (EverOver(ts[..|ts| - 1]) || Load(ts, 300_000_000_000) > 1000)
  }

  lemma {:induction false} EverOverPrefix(ts: seq<int>, k: nat)
    requires 0 < k <= |ts| && (EverOver(ts[..k]) || Load(ts[..k], FIVE_MINUTES) > MAX_PER_FIVE_MINUTES)
    ensures EverOver(ts)
  {
    if k == |ts| {
      assert ts[..k] == ts;
    } else {
      assert ts[..|ts| - 1][..k] == ts[..k];
      EverOverPrefix(ts[..|ts| - 1], k);
    }
  }

  lemma {:induction false} EverOverWitness(ts: seq<int>) returns (k: nat)
    requires EverOver(ts)
    ensures 0 < k <= |ts| && Load(ts[..k], FIVE_MINUTES) > MAX_PER_FIVE_MINUTES
  {
    k := |ts|;
    assert ts[..k] == ts;
    if EverOver(ts[..|ts| - 1]) {
      k := EverOverWitness(ts[..|ts| - 1]);
      assert ts[..|ts| - 1][..k] == ts[..k];
    }
  }

  /** Tracker and answer read off the history: the stored counters are the loads of the two windows,
      the block flag says whether the five-minute load was ever exceeded. */
  lemma {:induction false} TrackerRefinesHistory(ts: seq<int>)
    requires |ts| > 0
    ensures StateOf(ts).isBlocked <==> EverOver(ts)
    ensures StateOf(ts).lastActive == ts[|ts| - 1]
    ensures !EverOver(ts) ==>
              StateOf(ts) == IPState(ts[Start(ts, 300_000_000_000)], ts[Start(ts, 60_000_000_000)],
                                     Load(ts, 60_000_000_000), Load(ts, 300_000_000_000), false, ts[|ts| - 1])
    ensures VerdictOf(ts) == if EverOver(ts) then Blocked
                             else if Load(ts, 60_000_000_000) > 5 then Throttled else Allowed
  {
    if |ts| > 1 {
      TrackerRefinesHistory(ts[..|ts| - 1]);
    }
  }

  lemma VerdictReads(ts: seq<int>, v: Verdict)
    requires |ts| > 0 && v == VerdictOf(ts)
    ensures v == if EverOver(ts) then Blocked else if Load(ts, 60_000_000_000) > 5 then Throttled else Allowed
  {
    TrackerRefinesHistory(ts);
  }

  // ---- Runs against histories ----

  lemma {:induction false} HistoryBounded(run: seq<Event>, ip: string, t: int)
    requires forall i :: 0 <= i < |run| && run[i].Check? ==> run[i].now <= t
    ensures forall k :: 0 <= k < |History(run, ip)| ==> History(run, ip)[k] <= t
  {
    if run != [] {
      HistoryBounded(run[..|run| - 1], ip, t);
    }
  }

  lemma {:induction false} HistorySorted(run: seq<Event>, ip: string)
    requires Timed(run)
    ensures Sorted(History(run, ip))
  {
    if run != [] {
      var n, e := |run| - 1, run[|run| - 1];
      HistorySorted(run[..n], ip);
      if e.Check? {
        HistoryBounded(run[..n], ip, e.now);
      }
    }
  }

  ghost predicate SomeEventAfter(run: seq<Event>, t: int) {
    exists i :: 0 <= i < |run| && run[i].now > t
  }

  lemma SomeEventAfterPrefix(run: seq<Event>, n: nat, t: int)
    requires n <= |run| && SomeEventAfter(run[..n], t)
    ensures SomeEventAfter(run, t)
    ensures Timed(run) && n < |run| && run[n].Check? ==> run[n].now > t
  {
    var i :| 0 <= i < n && run[..n][i].now > t;
    assert run[i].now > t;
  }

  /** A tracker the sweep may have dropped: its IP is not blocked and has been idle for ten minutes. */
  ghost predicate Dormant(run: seq<Event>, ip: string) {
    var ts := History(run, ip);
    ts != [] ==> !EverOver(ts) && SomeEventAfter(run, ts[|ts| - 1] + TEN_MINUTES)
  }

  /** A request that comes long after the tracker's last one finds it as good as new. */
  lemma RevivalIsFresh(ts: seq<int>, now: int)
    requires Sorted(ts) && ts != [] && !EverOver(ts) && now - ts[|ts| - 1] > TEN_MINUTES
    ensures Touch(StateOf(ts), now) == Touch(NewTracker(now), now)
  {
    TrackerRefinesHistory(ts);
  }

  /** The tracker a request finds, kept or recreated, is worth the tracker that was never forgotten. */
  lemma RequestRefinesHistory(run: seq<Event>, ip: string, now: int, sweeping: bool)
    requires Timed(run + [Check(ip, now)])
    requires Represents(run, ip, sweeping)
    ensures var ts := History(run, ip) + [now];
            Touch(Lookup(After(run, sweeping), ip, now), now) == (StateOf(ts), VerdictOf(ts))
  {
    var past := History(run, ip);
    assert (past + [now])[..|past|] == past;
    if past != [] && ip !in After(run, sweeping) {
      var all := run + [Check(ip, now)];
      assert all[..|run|] == run;
      SomeEventAfterPrefix(all, |run|, past[|past| - 1] + TEN_MINUTES);
      HistorySorted(run, ip) by { assert forall i, j :: 0 <= i < j < |run| ==> run[i] == all[i] && run[j] == all[j]; }
      RevivalIsFresh(past, now);
    }
  }

  /** The table holds the tracker of ip's whole history, or none if it may be forgotten. */
  ghost predicate Represents(run: seq<Event>, ip: string, sweeping: bool) {
    var ts, m := History(run, ip), After(run, sweeping);
    if ip in m then ts != [] && m[ip] == StateOf(ts)
    else if sweeping then Dormant(run, ip)
    else ts == []
  }

  lemma {:induction false} RunRefinesHistory(run: seq<Event>, ip: string, sweeping: bool)
    requires Timed(run)
    ensures Represents(run, ip, sweeping)
  {
    if run != [] {
      var n, e := |run| - 1, run[|run| - 1];
      RunRefinesHistory(run[..n], ip, sweeping);
      var past := History(run[..n], ip);
      if e.Check? && e.ip == ip {
        assert run[..n] + [Check(ip, e.now)] == run;
        RequestRefinesHistory(run[..n], ip, e.now, sweeping);
      } else {
        assert History(run, ip) == past;
        if past != [] {
          TrackerRefinesHistory(past);
          if ip in After(run[..n], sweeping) {
            assert e.now - past[|past| - 1] > TEN_MINUTES ==> SomeEventAfter(run, past[|past| - 1] + TEN_MINUTES);
          } else {
            SomeEventAfterPrefix(run, n, past[|past| - 1] + TEN_MINUTES);
          }
        }
      }
    }
  }

  /** Every answer, with sweeping or without, is the verdict on the IP's whole history. */
  lemma AnswerRefinesHistory(run: seq<Event>, sweeping: bool, i: nat)
    requires Timed(run) && i < |run| && run[i].Check?
    ensures History(run[..i + 1], run[i].ip) == History(run[..i], run[i].ip) + [run[i].now]
    ensures Answer(run, sweeping, i) == VerdictOf(History(run[..i + 1], run[i].ip))
  {
    assert run[..i + 1][..i] == run[..i];
    assert run[..i] + [Check(run[i].ip, run[i].now)] == run[..i + 1];
    RunRefinesHistory(run[..i], run[i].ip, sweeping);
    RequestRefinesHistory(run[..i], run[i].ip, run[i].now, sweeping);
  }

  /** The sweep forgets an IP's tracker exactly if the IP is not blocked and its latest request is more than ten
      minutes old; everybody else's stays. */
  lemma EvictedExactlyWhenIdle(run: seq<Event>, ip: string, now: int)
    requires Timed(run) && ip in After(run, true)
    ensures var ts := History(run, ip);
            && ts != []
            && (ip !in After(run + [Sweep(ip, now)], true)
                <==> !EverOver(ts) && now - ts[|ts| - 1] > 600_000_000_000)
    ensures forall other :: other != ip ==>
                              (other in After(run + [Sweep(ip, now)], true) <==> other in After(run, true))
  {
    assert (run + [Sweep(ip, now)])[..|run|] == run;
    RunRefinesHistory(run, ip, true);
    TrackerRefinesHistory(History(run, ip));
  }

  /** What appending one event does to a run with sweeping. */
  lemma Extend(run: seq<Event>, e: Event)
    requires Timed(run) && (e.Check? ==> forall i :: 0 <= i < |run| ==> run[i].now <= e.now)
    ensures Timed(run + [e])
    ensures After(run + [e], true) == Step(After(run, true), e)
    ensures e.Check? ==>
              Touch(Lookup(After(run, true), e.ip, e.now), e.now).1 == VerdictOf(History(run, e.ip) + [e.now])
  {
    assert (run + [e])[..|run|] == run;
    if e.Check? {
      RunRefinesHistory(run, e.ip, true);
      RequestRefinesHistory(run, e.ip, e.now, true);
    }
  }

  lemma TableUpdated(m: Table, n: Table, ip: string)
    requires n.Keys == m.Keys && ip in m && forall k :: k in m && k != ip ==> n[k] == m[k]
    ensures n == m[ip := n[ip]]
  {
  }

  /** The table once a sweep has reached every key but those in `left`. */
  function SweptBut(m: Table, left: set<string>, now: int): Table {
    map k | k in m && (k in left || !Evictable(m[k], now)) :: m[k]
  }

  lemma SweepOneMore(m: Table, left: set<string>, k: string, now: int)
    requires k in left && left <= m.Keys
    ensures Step(SweptBut(m, left, now), Sweep(k, now)) == SweptBut(m, left - {k}, now)
  {
    var before, after := SweptBut(m, left, now), SweptBut(m, left - {k}, now);
    assert k in before && before[k] == m[k];
  }

  /** Sweeping is invisible: with it or without it, every request of every run gets the same answer. */
  lemma SweepInvisible(run: seq<Event>)
    requires Timed(run)
    ensures forall i :: 0 <= i < |run| && run[i].Check? ==> Answer(run, true, i) == Answer(run, false, i)
  {
    forall i | 0 <= i < |run| && run[i].Check? ensures Answer(run, true, i) == Answer(run, false, i) {
      AnswerRefinesHistory(run, true, i);
      AnswerRefinesHistory(run, false, i);
    }
  }
}
