/** When memory is the replay of the log after every schedule of given requests: exactly if no two of their
    entries clash, or the breaker lets in one request at a time. */
module Schedules {
  import opened WriteAheadLog
  import opened EngineRuns
  import opened Recovery

  /** The run serves exactly the entries of `es`, to the end and without a failed write. */
  ghost predicate Serves(run: seq<Event>, max: nat, es: seq<Entry>) {
    && NoFailure(run) && After(run, max).requests == map[]
    && multiset(After(run, max).log) == multiset(es)
  }

  ghost predicate EndsInReplay(run: seq<Event>, max: nat) {
    After(run, max).mem == Replay(After(run, max).log)
  }

  // ---- Entries that do not clash ----

  lemma SameEntries(a: seq<Entry>, b: seq<Entry>)
    requires multiset(a) == multiset(b)
    ensures Entries(a) == Entries(b)
  {
    forall e ensures e in a <==> e in b {
      assert e in multiset(a) <==> e in multiset(b);
    }
  }

  lemma CompatibleIsReplayed(run: seq<Event>, max: nat, es: seq<Entry>)
    requires Serves(run, max, es) && Compatible(Entries(es))
    ensures EndsInReplay(run, max)
  {
    var s := After(run, max);
    NoFailureAllWritten(run, max);
    SameEntries(s.log, es);
    assert Submitted(s) == Entries(es);
    QuiescentIsReplay(run, max);
  }

  // ---- One request at a time ----

  /** The memory when the only request in progress stands at `pc` and its line is the last of the log. */
  function Due(log: seq<Entry>, pc: PC): Mem
    requires pc in {Appended, Stored, Keyed} ==> log != []
  {
    match pc
    case Appended => Replay(log[..|log| - 1])
    case Stored => Store(Replay(log[..|log| - 1]), log[|log| - 1])
    case Keyed => SetKey(Store(Replay(log[..|log| - 1]), log[|log| - 1]), log[|log| - 1])
    case _ => Replay(log)
  }

  ghost predicate Serial(s: State) {
    && (s.requests == map[] ==> s.mem == Replay(s.log))
    && (forall r :: r in s.requests ==>
                      var q := s.requests[r];
                      && (q.pc in {Appended, Stored, Keyed} ==> s.log != [] && s.log[|s.log| - 1] == q.entry)
                      && s.mem == Due(s.log, q.pc))
  }

  lemma OnlyOne(s: State, max: nat, r: nat, x: nat)
    requires Balanced(s, max) && max <= 1 && r in s.requests && x in s.requests
    ensures r == x && s.requests == map[r := s.requests[r]]
  {
    assert |s.requests.Keys| == |s.requests| <= 1;
    assert {r} <= s.requests.Keys;
    if y :| y in s.requests && y != r {
      SubsetSize({r, y}, s.requests.Keys);
    }
  }

  lemma AppendSerial(s: State, max: nat, r: nat)
    requires Balanced(s, max) && max <= 1 && Serial(s) && AtPC(s, r, Admitted)
    ensures Serial(Step(s, max, Append(r, true)))
  {
    OnlyOne(s, max, r, r);
    var t := Step(s, max, Append(r, true));
    assert t.log[..|t.log| - 1] == s.log;
  }

  /** A single request, and the memory it is due. */
  ghost predicate SerialAt(s: State, r: nat, q: Request) {
    && s.requests == map[r := q]
    && (q.pc in {Appended, Stored, Keyed} ==> s.log != [] && s.log[|s.log| - 1] == q.entry)
    && s.mem == Due(s.log, q.pc)
  }

  lemma SerialAtIsSerial(s: State, r: nat, q: Request)
    requires SerialAt(s, r, q)
    ensures Serial(s)
  {
    assert r in s.requests;
  }

  /** The next statement of the only handler. */
  lemma StoreSerial(s: State, max: nat, r: nat, q: Request)
    requires SerialAt(s, r, q) && q.pc == Appended
    ensures SerialAt(Step(s, max, StoreEntry(r)), r, q.(pc := Stored))
  {
  }

  lemma KeySerial(s: State, max: nat, r: nat, q: Request)
    requires SerialAt(s, r, q) && q.pc == Stored
    ensures SerialAt(Step(s, max, StoreKey(r)), r, q.(pc := Keyed))
  {
  }

  lemma CountSerial(s: State, max: nat, r: nat, q: Request)
    requires SerialAt(s, r, q) && q.pc == Keyed
    ensures SerialAt(Step(s, max, CountOne(r)), r, q.(pc := Counted))
  {
  }

  lemma AnswerSerial(s: State, max: nat, r: nat, q: Request)
    requires SerialAt(s, r, q) && q.pc == Counted
    ensures SerialAt(Step(s, max, Answer(r)), r, q.(pc := Answered))
  {
  }

  lemma ReleaseSerial(s: State, max: nat, r: nat, q: Request)
    requires SerialAt(s, r, q)
    ensures Serial(Step(s, max, Release(r)))
  {
    var t := Step(s, max, Release(r));
    if t == s {
      SerialAtIsSerial(s, r, q);
    } else {
      assert t.requests == map[];
    }
  }

  lemma HandlerSerial(s: State, max: nat, r: nat, q: Request, e: Event)
    requires SerialAt(s, r, q) && e in {StoreEntry(r), StoreKey(r), CountOne(r), Answer(r), Release(r)}
    ensures Serial(Step(s, max, e))
  {
    SerialAtIsSerial(s, r, q);
    match e {
      case StoreEntry(_) =>
        if q.pc == Appended {
          StoreSerial(s, max, r, q);
          SerialAtIsSerial(Step(s, max, e), r, q.(pc := Stored));
        }
      case StoreKey(_) =>
        if q.pc == Stored {
          KeySerial(s, max, r, q);
          SerialAtIsSerial(Step(s, max, e), r, q.(pc := Keyed));
        }
      case CountOne(_) =>
        if q.pc == Keyed {
          CountSerial(s, max, r, q);
          SerialAtIsSerial(Step(s, max, e), r, q.(pc := Counted));
        }
      case Answer(_) =>
        if q.pc == Counted {
          AnswerSerial(s, max, r, q);
          SerialAtIsSerial(Step(s, max, e), r, q.(pc := Answered));
        }
      case _ =>
        ReleaseSerial(s, max, r, q);
    }
  }

  lemma StepSerial(s: State, max: nat, e: Event)
    requires Balanced(s, max) && max <= 1 && Serial(s) && (e.Append? ==> e.ok)
    ensures Serial(Step(s, max, e))
  {
    if e.Append? {
      if AtPC(s, e.r, Admitted) {
        AppendSerial(s, max, e.r);
      }
    } else if e.Admit? {
      assert s.concurrentRequests < max ==> |s.requests| == 0;
    } else if !e.EnterOther? && !e.LeaveOther? && !e.Crash? {
      if e.r in s.requests {
        OnlyOne(s, max, e.r, e.r);
        HandlerSerial(s, max, e.r, s.requests[e.r], e);
      }
    }
  }

  lemma {:induction false} SerialRun(run: seq<Event>, max: nat)
    requires NoFailure(run) && max <= 1
    ensures Serial(After(run, max))
  {
    if run != [] {
      var n := |run| - 1;
      SerialRun(run[..n], max);
      BreakerCounts(run[..n], max);
      StepSerial(After(run[..n], max), max, run[n]);
    }
  }

  // ---- Two entries that clash ----

  /** Nobody in progress, no failed write: where the next request starts. */
  ghost predicate Idle(s: State) {
    s.requests == map[] && s.others == 0 && s.concurrentRequests == 0 && s.unlogged == []
  }

  lemma AdmitFirst(s: State, max: nat, e: Entry) returns (t: State)
    requires Idle(s) && max >= 1
    ensures t == Step(s, max, Admit(0, e))
    ensures t == s.(requests := map[0 := Request(e, Admitted, false)], concurrentRequests := 1)
  {
    t := Step(s, max, Admit(0, e));
  }

  /** Neither a failed write nor a crash. */
  predicate Smooth(run: seq<Event>) {
    forall i :: 0 <= i < |run| ==> run[i] != Crash && (run[i].Append? ==> run[i].ok)
  }

  lemma SmoothAppend(a: seq<Event>, b: seq<Event>)
    requires Smooth(a) && Smooth(b)
    ensures Smooth(a + b)
  {
  }

  function Whole(e: Entry): seq<Event> {
    [Admit(0, e)] + Script(0, true)
  }

  lemma WholeIsSmooth(e: Entry)
    ensures Smooth(Whole(e))
  {
  }

  lemma ServeOne(s: State, max: nat, e: Entry) returns (t: State)
    requires Idle(s) && max >= 1
    ensures t == Exec(s, max, Whole(e)) && Idle(t) && t.log == s.log + [e]
  {
    var s1 := AdmitFirst(s, max, e);
    t := ScriptIsApply(s1, max, 0, true);
    ExecCons(s, max, Admit(0, e), Script(0, true));
    assert t.requests == map[];
  }

  lemma ServeMore(before: seq<Event>, max: nat, e: Entry) returns (run: seq<Event>)
    requires max >= 1 && Smooth(before) && Idle(After(before, max))
    ensures Smooth(run) && Idle(After(run, max)) && After(run, max).log == After(before, max).log + [e]
  {
    var t := ServeOne(After(before, max), max, e);
    run := before + Whole(e);
    ExecIsAfter(before, max, Whole(e));
    WholeIsSmooth(e);
    SmoothAppend(before, Whole(e));
  }

  /** Any entries can be served one after the other. */
  lemma {:induction false} ServeInOrder(es: seq<Entry>, max: nat) returns (run: seq<Event>)
    requires max >= 1
    ensures Smooth(run) && Idle(After(run, max)) && After(run, max).log == es
  {
    if es == [] {
      run := [];
    } else {
      var n := |es| - 1;
      var before := ServeInOrder(es[..n], max);
      run := ServeMore(before, max, es[n]);
      assert es == es[..n] + [es[n]];
    }
  }

  /** Both admitted and logged, a before b ... */
  function Logging(a: Entry, b: Entry): seq<Event> {
    [Admit(0, a)] + ([Admit(1, b)] + ([Append(0, true)] + ([Append(1, true)] + [])))
  }

  /** ... and then stored in the other order. */
  function Storing(): seq<Event> {
    [StoreEntry(1)] + ([StoreEntry(0)] + [])
  }

  lemma LogBoth(s: State, max: nat, a: Entry, b: Entry) returns (t: State)
    requires Idle(s) && max >= 2
    ensures t == Exec(s, max, Logging(a, b))
    ensures t == s.(log := s.log + [a] + [b], concurrentRequests := 2,
                    requests := map[0 := Request(a, Appended, true), 1 := Request(b, Appended, true)])
  {
    var s1 := AdmitFirst(s, max, a);
    var s2 := s1.(requests := map[0 := Request(a, Admitted, false), 1 := Request(b, Admitted, false)],
                  concurrentRequests := 2);
    var s3 := s2.(requests := map[0 := Request(a, Appended, true), 1 := Request(b, Admitted, false)],
                  log := s.log + [a]);
    t := s3.(log := s3.log + [b], requests := map[0 := Request(a, Appended, true), 1 := Request(b, Appended, true)]);
    ExecCons(s, max, Admit(0, a), [Admit(1, b)] + ([Append(0, true)] + ([Append(1, true)] + [])));
    ExecCons(s1, max, Admit(1, b), [Append(0, true)] + ([Append(1, true)] + []));
    assert Step(s1, max, Admit(1, b)) == s2;
    ExecCons(s2, max, Append(0, true), [Append(1, true)] + []);
    assert Step(s2, max, Append(0, true)) == s3;
    ExecCons(s3, max, Append(1, true), []);
    assert Step(s3, max, Append(1, true)) == t;
  }

  lemma StoreCrossed(s: State, max: nat, a: Entry, b: Entry) returns (t: State)
    requires s.requests == map[0 := Request(a, Appended, true), 1 := Request(b, Appended, true)]
    ensures t == Exec(s, max, Storing())
    ensures t == s.(mem := Store(Store(s.mem, b), a),
                    requests := map[0 := Request(a, Stored, true), 1 := Request(b, Stored, true)])
  {
    var s1 := s.(requests := map[0 := Request(a, Appended, true), 1 := Request(b, Stored, true)],
                 mem := Store(s.mem, b));
    t := s1.(mem := Store(s1.mem, a), requests := map[0 := Request(a, Stored, true), 1 := Request(b, Stored, true)]);
    ExecCons(s, max, StoreEntry(1), [StoreEntry(0)] + []);
    assert Step(s, max, StoreEntry(1)) == s1;
    ExecCons(s1, max, StoreEntry(0), []);
    assert Step(s1, max, StoreEntry(0)) == t;
  }

  lemma FinishBoth(s: State, max: nat, a: Entry, b: Entry) returns (t: State)
    requires s.requests == map[0 := Request(a, Stored, true), 1 := Request(b, Stored, true)]
    requires s.concurrentRequests == 2 && Present(s.mem, a)
    ensures t == Exec(s, max, Rest(0) + Rest(1))
    ensures t.log == s.log && t.requests == map[] && Present(t.mem, a)
  {
    var s1 := KeyToRelease(s, max, 0);
    assert s1.requests == map[1 := Request(b, Stored, true)];
    t := KeyToRelease(s1, max, 1);
    ExecAppend(s, max, Rest(0), Rest(1));
    SetKeyTables(s.mem, a);
    SetKeyTables(SetKey(s.mem, a), a);
    SetKeyTables(s1.mem, b);
    SetKeyTables(SetKey(s1.mem, b), b);
    assert t.requests == map[];
  }

  function Crossing(a: Entry, b: Entry): seq<Event> {
    Logging(a, b) + (Storing() + (Rest(0) + Rest(1)))
  }

  lemma Crossed(s: State, max: nat, a: Entry, b: Entry) returns (t: State)
    requires Idle(s) && max >= 2
    ensures t == Exec(s, max, Crossing(a, b))
    ensures t.log == s.log + [a] + [b] && t.requests == map[] && Present(t.mem, a)
  {
    var s1 := LogBoth(s, max, a, b);
    var s2 := StoreCrossed(s1, max, a, b);
    StoreTable(Store(s1.mem, b), a);
    t := FinishBoth(s2, max, a, b);
    ExecAppend(s, max, Logging(a, b), Storing() + (Rest(0) + Rest(1)));
    ExecAppend(s1, max, Storing(), Rest(0) + Rest(1));
  }

  lemma CrossingIsSmooth(a: Entry, b: Entry)
    ensures Smooth(Crossing(a, b))
  {
  }

  lemma TakePair(es: seq<Entry>, i: nat, j: nat) returns (others: seq<Entry>)
    requires i < j < |es|
    ensures multiset(others + [es[i]] + [es[j]]) == multiset(es)
  {
    others := es[..i] + es[i + 1..j] + es[j + 1..];
    assert es == es[..i] + [es[i]] + es[i + 1..j] + [es[j]] + es[j + 1..];
  }

  /** Clashing entries of any kind can be logged in one order and stored in the other: with two requests
      allowed at a time some schedule ends in a memory that is not the replay of its log. */
  lemma ClashBreaksReplay(es: seq<Entry>, max: nat, i: nat, j: nat) returns (run: seq<Event>)
    requires max >= 2 && i < j < |es| && Clash(es[i], es[j])
    ensures Serves(run, max, es) && Smooth(run) && !EndsInReplay(run, max)
  {
    var a, b := es[i], es[j];
    var others := TakePair(es, i, j);
    var before := ServeInOrder(others, max);
    var t := Crossed(After(before, max), max, a, b);
    run := before + Crossing(a, b);
    ExecIsAfter(before, max, Crossing(a, b));
    CrossingIsSmooth(a, b);
    SmoothAppend(before, Crossing(a, b));
    ReplayPresent(t.log, a);
    assert t.log[|t.log| - 1] == b;
  }

  /** For given entries, every schedule that serves exactly them ends with the memory equal to the replay of
      its log if and only if no two of them share kind and id with different payloads, or the breaker admits
      at most one request at a time. */
  lemma ReplayIsExact(es: seq<Entry>, max: nat)
    ensures (forall run :: Serves(run, max, es) ==> EndsInReplay(run, max)) <==> (max <= 1 || Compatible(Entries(es)))
  {
    if max <= 1 || Compatible(Entries(es)) {
      forall run | Serves(run, max, es) ensures EndsInReplay(run, max) {
        if max <= 1 {
          SerialRun(run, max);
        } else {
          CompatibleIsReplayed(run, max, es);
        }
      }
    } else {
      var a, b :| a in Entries(es) && b in Entries(es) && Clash(a, b);
      var i :| 0 <= i < |es| && es[i] == a;
      var j :| 0 <= j < |es| && es[j] == b;
      var run := ClashBreaksReplay(es, max, if i < j then i else j, if i < j then j else i);
    }
  }
}
