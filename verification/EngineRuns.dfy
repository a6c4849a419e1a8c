/** The platform engine under concurrent requests and crashes. Handlers advance one shared access at a
    time, in any interleaving; the log survives a crash, everything else is lost and rebuilt by replay.
    A step that is not possible when its turn comes is skipped. A log line is written whole or not at
    all, and a write that fails is swallowed, as the code does. */
module EngineRuns {
  import opened WriteAheadLog

  datatype PC = Admitted | Appended | Stored | Keyed | Counted | Answered

  /** One request in progress: its entry, how far its handler is, whether its log line was written. */
  datatype Request = Request(entry: Entry, pc: PC, logged: bool)

  datatype State = State(
    log: seq<Entry>,             // state_wal.log
    mem: Mem,
    requests: map<nat, Request>,
    others: nat,                 // login and register requests in progress
    concurrentRequests: nat,
    unlogged: seq<Entry>,        // entries whose write failed since the last start
    acknowledged: seq<Request>)  // requests that were answered, ever

  datatype Event =
    | Admit(r: nat, entry: Entry)
    | Append(r: nat, ok: bool)
    | StoreEntry(r: nat)
    | StoreKey(r: nat)
    | CountOne(r: nat)
    | Answer(r: nat)
    | Release(r: nat)
    | EnterOther
    | LeaveOther
    | Crash

  const INITIAL := State([], EMPTY, map[], 0, 0, [], [])

  predicate AtPC(s: State, r: nat, pc: PC) {
    r in s.requests && s.requests[r].pc == pc
  }

  function Advance(s: State, r: nat, pc: PC): State
    requires r in s.requests
  {
    s.(requests := s.requests[r := s.requests[r].(pc := pc)])
  }

  function Step(s: State, max: nat, e: Event): State {
    match e
    case Admit(r, entry) =>
      if s.concurrentRequests >= max || r in s.requests then s
      else s.(requests := s.requests[r := Request(entry, Admitted, false)],
              concurrentRequests := s.concurrentRequests + 1)
    case Append(r, ok) =>
      if !AtPC(s, r, Admitted) then s
      else
        var q := s.requests[r];
        var t := s.(requests := s.requests[r := q.(pc := Appended, logged := ok)]);
        if ok then t.(log := s.log + [q.entry]) else t.(unlogged := s.unlogged + [q.entry])
    case StoreEntry(r) =>
      if !AtPC(s, r, Appended) then s
      else Advance(s, r, Stored).(mem := Store(s.mem, s.requests[r].entry))
    case StoreKey(r) =>
      if !AtPC(s, r, Stored) then s
      else Advance(s, r, Keyed).(mem := SetKey(s.mem, s.requests[r].entry))
    case CountOne(r) =>
      if !AtPC(s, r, Keyed) then s
      else Advance(s, r, Counted).(mem := Count(s.mem))
    case Answer(r) =>
      if !AtPC(s, r, Counted) then s
      else Advance(s, r, Answered).(acknowledged := s.acknowledged + [s.requests[r]])
    case Release(r) =>
      if !AtPC(s, r, Answered) || s.concurrentRequests == 0 then s
      else s.(requests := s.requests - {r}, concurrentRequests := s.concurrentRequests - 1)
    case EnterOther =>
      if s.concurrentRequests >= max then s
      else s.(others := s.others + 1, concurrentRequests := s.concurrentRequests + 1)
    case LeaveOther =>
      if s.others == 0 || s.concurrentRequests == 0 then s
      else s.(others := s.others - 1, concurrentRequests := s.concurrentRequests - 1)
    case Crash =>
      State(s.log, Replay(s.log), map[], 0, 0, [], s.acknowledged)
  }

  function After(run: seq<Event>, max: nat): State {
    if run == [] then INITIAL else Step(After(run[..|run| - 1], max), max, run[|run| - 1])
  }

  // ---- The admission breaker ----

  ghost predicate Balanced(s: State, max: nat) {
    s.concurrentRequests == |s.requests| + s.others && s.concurrentRequests <= max
  }

  lemma StepBalanced(s: State, max: nat, e: Event)
    requires Balanced(s, max)
    ensures Balanced(Step(s, max, e), max)
  {
    var t := Step(s, max, e);
    if e.Release? && t != s {
      assert t.requests.Keys == s.requests.Keys - {e.r};
      assert |t.requests.Keys| == |t.requests| && |s.requests.Keys| == |s.requests|;
    } else if t.requests.Keys == s.requests.Keys {
      assert |t.requests| == |t.requests.Keys| == |s.requests.Keys| == |s.requests|;
    }
  }

  /** In every interleaving the counter is the number of admitted, unfinished requests, and never above the limit. */
  lemma {:induction false} BreakerCounts(run: seq<Event>, max: nat)
    ensures Balanced(After(run, max), max)
  {
    if run != [] {
      BreakerCounts(run[..|run| - 1], max);
      StepBalanced(After(run[..|run| - 1], max), max, run[|run| - 1]);
    }
  }

  // ---- The transaction counter against the log ----

  /** Requests whose entry has been through appendWAL but not through the counter. */
  function Uncounted(s: State): set<nat> {
    set r | r in s.requests && s.requests[r].pc in {Appended, Stored, Keyed}
  }

  ghost predicate CountMatches(s: State) {
    s.mem.transactionCount + |Uncounted(s)| == |s.log| + |s.unlogged|
  }

  /** What a step does to the counter and to the set of uncounted requests. */
  lemma AppendUncounted(s: State, max: nat, r: nat, ok: bool)
    requires AtPC(s, r, Admitted)
    ensures Uncounted(Step(s, max, Append(r, ok))) == Uncounted(s) + {r} && r !in Uncounted(s)
  {
  }

  lemma CountOneUncounted(s: State, max: nat, r: nat)
    requires AtPC(s, r, Keyed)
    ensures Uncounted(Step(s, max, CountOne(r))) == Uncounted(s) - {r} && r in Uncounted(s)
  {
  }

  lemma OtherUncounted(s: State, max: nat, e: Event)
    requires !e.Append? && !e.CountOne? && !e.Crash?
    ensures Uncounted(Step(s, max, e)) == Uncounted(s)
    ensures Step(s, max, e).mem.transactionCount == s.mem.transactionCount
    ensures Step(s, max, e).log == s.log && Step(s, max, e).unlogged == s.unlogged
  {
    var t := Step(s, max, e);
    forall r ensures r in Uncounted(t) <==> r in Uncounted(s) {
    }
  }

  lemma StepCount(s: State, max: nat, e: Event)
    requires CountMatches(s)
    ensures CountMatches(Step(s, max, e))
  {
    if e.Append? {
      if AtPC(s, e.r, Admitted) {
        AppendUncounted(s, max, e.r, e.ok);
      }
    } else if e.CountOne? {
      if AtPC(s, e.r, Keyed) {
        CountOneUncounted(s, max, e.r);
      }
    } else if e.Crash? {
      ReplayCount(s.log);
      assert Uncounted(Step(s, max, e)) == {};
    } else {
      OtherUncounted(s, max, e);
    }
  }

  lemma {:induction false} CounterTrailsLog(run: seq<Event>, max: nat)
    ensures CountMatches(After(run, max))
  {
    if run == [] {
      assert Uncounted(INITIAL) == {};
    } else {
      CounterTrailsLog(run[..|run| - 1], max);
      StepCount(After(run[..|run| - 1], max), max, run[|run| - 1]);
    }
  }

  lemma SubsetSize<T>(a: set<T>, b: set<T>)
    requires a <= b
    ensures |a| <= |b|
  {
    if a != {} {
      var x :| x in a;
      SubsetSize(a - {x}, b - {x});
    }
  }

  /** Breaker and log compose: the log is never more than `max` entries ahead of the counter, and with no
      request in progress and no failed write since the start it is exactly as long. */
  lemma LogIsAtMostMaxAhead(run: seq<Event>, max: nat)
    ensures var s := After(run, max);
            && |s.log| <= s.mem.transactionCount + max
            && (s.requests == map[] ==> s.mem.transactionCount == |s.log| + |s.unlogged|)
  {
    var s := After(run, max);
    BreakerCounts(run, max);
    CounterTrailsLog(run, max);
    SubsetSize(Uncounted(s), s.requests.Keys);
    assert |s.requests.Keys| == |s.requests|;
  }

  // ---- Events executed one after the other from any state ----

  function Exec(s: State, max: nat, es: seq<Event>): State
    decreases |es|
  {
    if es == [] then s else Exec(Step(s, max, es[0]), max, es[1..])
  }

  lemma {:induction false} ExecIsAfter(run: seq<Event>, max: nat, es: seq<Event>)
    ensures After(run + es, max) == Exec(After(run, max), max, es)
    decreases |es|
  {
    if es == [] {
      assert run + es == run;
    } else {
      var next := run + [es[0]];
      assert next[..|run|] == run && next + es[1..] == run + es;
      ExecIsAfter(next, max, es[1..]);
    }
  }

  lemma ExecCons(s: State, max: nat, e: Event, es: seq<Event>)
    ensures Exec(s, max, [e] + es) == Exec(Step(s, max, e), max, es)
  {
    assert ([e] + es)[1..] == es;
  }

  lemma {:induction false} ExecAppend(s: State, max: nat, a: seq<Event>, b: seq<Event>)
    ensures Exec(s, max, a + b) == Exec(Exec(s, max, a), max, b)
    decreases |a|
  {
    if a == [] {
      assert a + b == b;
    } else {
      assert (a + b)[1..] == a[1..] + b;
      ExecAppend(Step(s, max, a[0]), max, a[1..], b);
    }
  }

  /** The steps of a handler from the key on. */
  function Rest(r: nat): seq<Event> {
    [StoreKey(r)] + ([CountOne(r)] + ([Answer(r)] + ([Release(r)] + [])))
  }

  /** A handler's own steps, in its order. */
  function Script(r: nat, ok: bool): seq<Event> {
    [Append(r, ok)] + ([StoreEntry(r)] + Rest(r))
  }

  lemma AppendAndStore(s: State, max: nat, r: nat, ok: bool, es: seq<Event>) returns (t: State)
    requires AtPC(s, r, Admitted)
    ensures Exec(s, max, [Append(r, ok)] + ([StoreEntry(r)] + es)) == Exec(t, max, es)
    ensures var q := s.requests[r];
            t == s.(mem := Store(s.mem, q.entry), requests := s.requests[r := q.(pc := Stored, logged := ok)],
                    log := if ok then s.log + [q.entry] else s.log,
                    unlogged := if ok then s.unlogged else s.unlogged + [q.entry])
  {
    ExecCons(s, max, Append(r, ok), [StoreEntry(r)] + es);
    ExecCons(Step(s, max, Append(r, ok)), max, StoreEntry(r), es);
    t := Step(Step(s, max, Append(r, ok)), max, StoreEntry(r));
  }

  lemma KeyToRelease(s: State, max: nat, r: nat) returns (t: State)
    requires AtPC(s, r, Stored) && s.concurrentRequests > 0
    ensures Exec(s, max, Rest(r)) == t
    ensures t == s.(mem := Count(SetKey(s.mem, s.requests[r].entry)), requests := s.requests - {r},
                    concurrentRequests := s.concurrentRequests - 1,
                    acknowledged := s.acknowledged + [s.requests[r].(pc := Counted)])
  {
    var s1 := Advance(s, r, Keyed).(mem := SetKey(s.mem, s.requests[r].entry));
    var s2 := Advance(s1, r, Counted).(mem := Count(s1.mem));
    var s3 := Advance(s2, r, Answered).(acknowledged := s2.acknowledged + [s2.requests[r]]);
    t := s3.(requests := s3.requests - {r}, concurrentRequests := s.concurrentRequests - 1);
    assert t.requests == s.requests - {r};
    ExecCons(s, max, StoreKey(r), [CountOne(r)] + ([Answer(r)] + ([Release(r)] + [])));
    ExecCons(s1, max, CountOne(r), [Answer(r)] + ([Release(r)] + []));
    ExecCons(s2, max, Answer(r), [Release(r)] + []);
    ExecCons(s3, max, Release(r), []);
  }

  /** A handler that is not interleaved with others does to log and memory what replay does for its entry. */
  lemma ScriptIsApply(s: State, max: nat, r: nat, ok: bool) returns (t: State)
    requires AtPC(s, r, Admitted) && s.concurrentRequests > 0
    ensures t == Exec(s, max, Script(r, ok))
    ensures var e := s.requests[r].entry;
            && t.mem == Apply(s.mem, e)
            && t.log == (if ok then s.log + [e] else s.log)
            && t.unlogged == (if ok then s.unlogged else s.unlogged + [e])
            && t.requests == s.requests - {r} && t.concurrentRequests == s.concurrentRequests - 1
            && t.others == s.others
            && |t.acknowledged| == |s.acknowledged| + 1 && t.acknowledged[|s.acknowledged|].entry == e
  {
    var s2 := AppendAndStore(s, max, r, ok, Rest(r));
    t := KeyToRelease(s2, max, r);
  }
}
