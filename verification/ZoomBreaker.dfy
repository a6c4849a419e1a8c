/** The circuit breaker of the Zoom client as a timed state machine. Times are nanoseconds. */
module ZoomBreaker {
  import opened Clock
  import opened Options

  const OPEN_FOR: nat := 60 * SECOND

  /** `until` is None while it is the zero time, which is before every reading of the clock. */
  datatype State = State(failures: nat, until: Option<int>)

  const CLOSED := State(0, None)

  /** One call of recordResult. */
  datatype Record = Record(now: int, ok: bool)

  predicate Open(s: State, now: int) {
    s.until.Some? && now < s.until.value
  }

  function Recorded(s: State, r: Record): State {
    if r.ok then CLOSED
    else State(s.failures + 1, if s.failures + 1 >= 3 then Some(r.now + OPEN_FOR) else s.until)
  }

  function After(history: seq<Record>): State {
    if history == [] then CLOSED else Recorded(After(history[..|history| - 1]), history[|history| - 1])
  }

  // ---- The breaker against the history of results ----

  /** Failures recorded since the last success. */
  function TrailingFailures(history: seq<Record>): (n: nat)
    ensures n <= |history|
  {
    if history == [] || history[|history| - 1].ok then 0 else TrailingFailures(history[..|history| - 1]) + 1
  }

  lemma {:induction false} TrailingIsLongest(history: seq<Record>)
    ensures var n := TrailingFailures(history);
            && (forall k :: |history| - n <= k < |history| ==> !history[k].ok)
            && (n < |history| ==> history[|history| - n - 1].ok)
  {
    if history != [] && !history[|history| - 1].ok {
      TrailingIsLongest(history[..|history| - 1]);
    }
  }

  /** The circuit is open exactly for a minute after the latest result if that was, at least, the third
      failure in a row. Holds in whatever order and at whatever times results are recorded. */
  lemma {:induction false} OpenRefinesHistory(history: seq<Record>, now: int)
    ensures After(history).failures == TrailingFailures(history)
    ensures Open(After(history), now)
            <==> TrailingFailures(history) >= 3 && now < history[|history| - 1].now + 60_000_000_000
    ensures TrailingFailures(history) < 3 ==> After(history).until == None
  {
    if history != [] {
      OpenRefinesHistory(history[..|history| - 1], now);
    }
  }

  // ---- One caller after another during an outage ----

  /** A call that checks the circuit at `start` and, if it attempts anything, records its result at `end`. */
  datatype Call = Call(start: int, end: int)

  ghost predicate Sequential(calls: seq<Call>) {
    && (forall i :: 0 <= i < |calls| ==> calls[i].start <= calls[i].end)
    && (forall i, j :: 0 <= i < j < |calls| ==> calls[i].end <= calls[j].start)
  }

  /** The calls that find the circuit closed, when every attempt fails, after any earlier history. */
  function Attempts(earlier: seq<Record>, calls: seq<Call>): (made: seq<Call>)
    ensures |made| <= |calls|
  {
    if calls == [] then []
    else
      var c := calls[|calls| - 1];
      var made := Attempts(earlier, calls[..|calls| - 1]);
      if Open(After(earlier + Failures(made)), c.start) then made else made + [c]
  }

  function Failures(made: seq<Call>): (h: seq<Record>)
    ensures |h| == |made|
    ensures forall i :: 0 <= i < |h| ==> h[i] == Record(made[i].end, false)
  {
    seq(|made|, i requires 0 <= i < |made| => Record(made[i].end, false))
  }

  lemma {:induction false} FailuresTrail(earlier: seq<Record>, made: seq<Call>)
    ensures TrailingFailures(earlier + Failures(made)) >= |made|
    ensures made != [] ==> (earlier + Failures(made))[|earlier| + |made| - 1] == Record(made[|made| - 1].end, false)
  {
    if made != [] {
      var n := |made| - 1;
      assert (earlier + Failures(made))[..|earlier| + n] == earlier + Failures(made[..n]);
      FailuresTrail(earlier, made[..n]);
    }
  }

  lemma AttemptAfterThree(earlier: seq<Record>, made: seq<Call>, start: int)
    requires |made| >= 3 && !Open(After(earlier + Failures(made)), start)
    ensures start >= made[|made| - 1].end + OPEN_FOR
  {
    FailuresTrail(earlier, made);
    OpenRefinesHistory(earlier + Failures(made), start);
  }

  /** From the third attempt on, attempts are at least a minute apart. */
  ghost predicate Spaced(made: seq<Call>) {
    forall k :: 3 <= k < |made| ==> made[k].start >= made[k - 1].start + 60_000_000_000
  }

  lemma SpacedAppend(made: seq<Call>, c: Call)
    requires Sequential(made) && Spaced(made) && c.start <= c.end
    requires forall i :: 0 <= i < |made| ==> made[i].end <= c.start
    requires |made| >= 3 ==> c.start >= made[|made| - 1].end + OPEN_FOR
    ensures Sequential(made + [c]) && Spaced(made + [c])
  {
  }

  lemma {:induction false} AttemptsAreSpaced(earlier: seq<Record>, calls: seq<Call>, t: int)
    requires Sequential(calls) && forall i :: 0 <= i < |calls| ==> calls[i].end <= t
    ensures var made := Attempts(earlier, calls);
            Sequential(made) && Spaced(made) && forall i :: 0 <= i < |made| ==> made[i].end <= t
  {
    if calls != [] {
      var n := |calls| - 1;
      var c, made := calls[n], Attempts(earlier, calls[..n]);
      AttemptsAreSpaced(earlier, calls[..n], c.start);
      if !Open(After(earlier + Failures(made)), c.start) {
        if |made| >= 3 {
          AttemptAfterThree(earlier, made, c.start);
        }
        SpacedAppend(made, c);
      }
    }
  }

  lemma {:induction false} SpacingAdds(made: seq<Call>, i: nat, j: nat)
    requires Spaced(made)
    requires 2 <= i <= j < |made|
    ensures made[j].start - made[i].start >= (j - i) * OPEN_FOR
  {
    if i < j {
      SpacingAdds(made, i, j - 1);
    }
  }

  /** In a total outage, sequential callers attempt at most 3 + T/60s calls in any span of length T. */
  lemma OutageAttempts(earlier: seq<Record>, calls: seq<Call>, i: nat, j: nat, span: nat)
    requires Sequential(calls)
    requires i <= j < |Attempts(earlier, calls)|
    requires Attempts(earlier, calls)[j].start - Attempts(earlier, calls)[i].start <= span
    ensures j - i + 1 <= 3 + span / 60_000_000_000
  {
    var made := Attempts(earlier, calls);
    AttemptsAreSpaced(earlier, calls, calls[|calls| - 1].end);
    SpacedAttempts(made, i, j, span);
  }

  lemma SpacedAttempts(made: seq<Call>, i: nat, j: nat, span: nat)
    requires Sequential(made) && Spaced(made) && i <= j < |made| && made[j].start - made[i].start <= span
    ensures j - i + 1 <= 3 + span / OPEN_FOR
  {
    if j > i + 2 {
      SpacingAdds(made, i + 2, j);
      assert made[i].start <= made[i].end <= made[i + 2].start;
      assert (j - i - 2) * OPEN_FOR <= span;
    }
  }

  // ---- The client ----

  /** How an attempt ends. */
  datatype Ending = NoToken | MockToken | RequestNotBuilt | SendFailed | BadStatus | BadBody | Succeeded

  datatype CreateReply = Offline | Mock | Meeting | Error

  datatype StatusReply = OfflineStatus | WaitingStatus | ZoomStatus | StatusError

  /** The history says that nothing is to be attempted now. */
  predicate Tripped(history: seq<Record>, now: int) {
    TrailingFailures(history) >= 3 && now < history[|history| - 1].now + 60_000_000_000
  }

  /** What an attempt leaves in the history. */
  ghost predicate Noted(before: seq<Record>, after: seq<Record>, result: Option<bool>, end: int) {
    if result == None then after == before else after == before + [Record(end, result.value)]
  }

  class ZoomClient {
    var failures: nat
    var circuitOpenUntil: Option<int>
    ghost var history: seq<Record>

    ghost predicate Valid()
      reads this
    {
      failures == After(history).failures && circuitOpenUntil == After(history).until
    }

    constructor ()
      ensures Valid() && history == []
    {
      failures, circuitOpenUntil, history := 0, None, [];
    }

    method CircuitOpen(now: int) returns (open: bool)
      requires Valid()
      ensures open <==> Tripped(history, now)
    {
      OpenRefinesHistory(history, now);
      open := circuitOpenUntil.Some? && now < circuitOpenUntil.value;
    }

    method RecordResult(ok: bool, now: int)
      requires Valid()
      modifies this
      ensures Valid() && history == old(history) + [Record(now, ok)]
    {
      history := history + [Record(now, ok)];
      assert history[..|history| - 1] == old(history);
      if ok {
        failures := 0;
        circuitOpenUntil := None;
        return;
      }
      failures := failures + 1;
      if failures >= 3 {
        circuitOpenUntil := Some(now + OPEN_FOR);
      }
    }

    /** The end of a call that found the circuit closed: its result is recorded, if it has one. */
    method Settle(result: Option<bool>, end: int)
      requires Valid()
      modifies this
      ensures Valid() && Noted(old(history), history, result, end)
    {
      if result.Some? {
        RecordResult(result.value, end);
      }
    }

    /** While the circuit is open nothing is attempted and nothing recorded. Otherwise a mock token and a request
        that cannot be built leave the breaker alone, every other failure is recorded, and only a body that
        cannot be read, or a request that cannot be built, reaches the caller as an error. */
    method CreateMeeting(start: int, ending: Ending, end: int) returns (reply: CreateReply)
      requires Valid()
      modifies this
      ensures Valid()
      ensures history == if Tripped(old(history), start) || ending == MockToken || ending == RequestNotBuilt
                         then old(history) else old(history) + [Record(end, ending == Succeeded)]
      ensures reply == (if Tripped(old(history), start) then Offline
                        else if ending == NoToken || ending == SendFailed || ending == BadStatus then Offline
                        else if ending == MockToken then Mock
                        else if ending == Succeeded then Meeting else Error)
    {
      var open := CircuitOpen(start);
      if open {
        return Offline;
      }
      var result: Option<bool>;
      match ending {
        case NoToken => result, reply := Some(false), Offline;
        case MockToken => result, reply := None, Mock;
        case RequestNotBuilt => result, reply := None, Error;
        case SendFailed => result, reply := Some(false), Offline;
        case BadStatus => result, reply := Some(false), Offline;
        case BadBody => result, reply := Some(false), Error;
        case Succeeded => result, reply := Some(true), Meeting;
      }
      Settle(result, end);
    }

    /** The same for ending a meeting, except that every failure reaches the caller, an open circuit looks
        like success, and the body of the response is not read. */
    method TerminateMeeting(start: int, ending: Ending, end: int) returns (ok: bool)
      requires Valid()
      modifies this
      ensures Valid()
      ensures history == if Tripped(old(history), start) || ending == MockToken || ending == RequestNotBuilt
                         then old(history)
                         else old(history) + [Record(end, ending == Succeeded || ending == BadBody)]
      ensures ok <==> Tripped(old(history), start) || ending == MockToken || ending == BadBody || ending == Succeeded
    {
      var open := CircuitOpen(start);
      if open {
        return true;
      }
      var result: Option<bool>;
      match ending {
        case MockToken => result, ok := None, true;
        case RequestNotBuilt => result, ok := None, false;
        case Succeeded => result, ok := Some(true), true;
        case BadBody => result, ok := Some(true), true;
        case NoToken => result, ok := Some(false), false;
        case SendFailed => result, ok := Some(false), false;
        case BadStatus => result, ok := Some(false), false;
      }
      Settle(result, end);
    }

    method GetMeetingStatus(start: int, ending: Ending, end: int) returns (reply: StatusReply)
      requires Valid()
      modifies this
      ensures Valid()
      ensures history == if Tripped(old(history), start) || ending == MockToken || ending == RequestNotBuilt
                         then old(history) else old(history) + [Record(end, ending == Succeeded)]
      ensures reply == (if Tripped(old(history), start) then OfflineStatus
                        else if ending == MockToken then WaitingStatus
                        else if ending == Succeeded then ZoomStatus else StatusError)
    {
      var open := CircuitOpen(start);
      if open {
        return OfflineStatus;
      }
      var result: Option<bool>;
      match ending {
        case MockToken => result, reply := None, WaitingStatus;
        case RequestNotBuilt => result, reply := None, StatusError;
        case Succeeded => result, reply := Some(true), ZoomStatus;
        case NoToken => result, reply := Some(false), StatusError;
        case SendFailed => result, reply := Some(false), StatusError;
        case BadStatus => result, reply := Some(false), StatusError;
        case BadBody => result, reply := Some(false), StatusError;
      }
      Settle(result, end);
    }
  }
}
