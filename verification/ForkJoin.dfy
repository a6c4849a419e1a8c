/** The concurrent map over chunks: one goroutine per chunk writing its own slot of two shared slices,
    a wait for all of them, and a verdict. A schedule is any sequence of steps of the goroutines and of
    the cancellation of the context; a step that is not possible when its turn comes is skipped. */
module ForkJoin {
  import Chunking
  import opened Options

  datatype Error = ContextDone | ProcessorFailed(reason: string)

  datatype Outcome = Value(result: string) | Failure(reason: string)

  /** A processor sees its chunk and whether the context is already done when it returns. */
  type Processor = (string, bool) -> Outcome

  datatype PC = Ready | Calling | Finished

  datatype State = State(cancelled: bool, pcs: seq<PC>, results: seq<string>, errs: seq<Option<Error>>)

  datatype Event =
    | Cancel
    | Begin(i: nat)    // goroutine i reaches its select
    | Return(i: nat)   // goroutine i's call of the processor returns

  function Initial(n: nat): State {
    State(false, seq(n, _ => Ready), seq(n, _ => ""), seq(n, _ => None))
  }

  function Step(s: State, chunks: seq<string>, processor: Processor, e: Event): State
    requires |s.pcs| == |s.results| == |s.errs| == |chunks|
  {
    match e
    case Cancel => s.(cancelled := true)
    case Begin(i) =>
      if i >= |chunks| || s.pcs[i] != Ready then s
      else if s.cancelled then s.(pcs := s.pcs[i := Finished], errs := s.errs[i := Some(ContextDone)])
      else s.(pcs := s.pcs[i := Calling])
    case Return(i) =>
      if i >= |chunks| || s.pcs[i] != Calling then s
      else
        var t := s.(pcs := s.pcs[i := Finished]);
        match processor(chunks[i], s.cancelled)
        case Value(r) => t.(results := s.results[i := r])
        case Failure(why) => t.(errs := s.errs[i := Some(ProcessorFailed(why))])
  }

  function After(chunks: seq<string>, processor: Processor, run: seq<Event>): (s: State)
    ensures |s.pcs| == |s.results| == |s.errs| == |chunks|
  {
    if run == [] then Initial(|chunks|)
    else Step(After(chunks, processor, run[..|run| - 1]), chunks, processor, run[|run| - 1])
  }

  predicate AllFinished(s: State) {
    forall i :: 0 <= i < |s.pcs| ==> s.pcs[i] == Finished
  }

  /** What Process returns after the wait: the results, or the fault. */
  function Join(s: State): Option<seq<string>> {
    if forall i :: 0 <= i < |s.errs| ==> s.errs[i] == None then Some(s.results) else None
  }

  // ---- Goroutine i on its own, read off the schedule ----

  datatype Fate =
    | NotStarted
    | InCall
    | SawCancel             // its first step came after the cancellation
    | Called(late: bool)    // it called the processor, which returned before or after the cancellation

  function FateOf(run: seq<Event>, i: nat): Fate {
    if run == [] then NotStarted
    else
      var before, e := run[..|run| - 1], run[|run| - 1];
      var f := FateOf(before, i);
      if e == Begin(i) && f == NotStarted then (if Cancel in before then SawCancel else InCall)
      else if e == Return(i) && f == InCall then Called(Cancel in before)
      else f
  }

  lemma {:induction false} CancelledIffCancelled(chunks: seq<string>, processor: Processor, run: seq<Event>)
    ensures After(chunks, processor, run).cancelled <==> Cancel in run
  {
    if run != [] {
      CancelledIffCancelled(chunks, processor, run[..|run| - 1]);
    }
  }

  /** A step of one goroutine, or the cancellation, leaves every other goroutine's slots alone. */
  lemma SlotsArePrivate(s: State, chunks: seq<string>, processor: Processor, e: Event, j: nat)
    requires |s.pcs| == |s.results| == |s.errs| == |chunks| && j < |chunks|
    requires e.Cancel? || e.i != j
    ensures var t := Step(s, chunks, processor, e);
            t.pcs[j] == s.pcs[j] && t.results[j] == s.results[j] && t.errs[j] == s.errs[j]
  {
  }

  /** Each slot, at any point of any schedule, is settled by its own goroutine's fate. */
  lemma {:induction false} SlotFollowsFate(chunks: seq<string>, processor: Processor, run: seq<Event>, i: nat)
    requires i < |chunks|
    ensures var s, f := After(chunks, processor, run), FateOf(run, i);
            && s.pcs[i] == (match f case NotStarted => Ready case InCall => Calling case _ => Finished)
            && s.results[i] == (if f.Called? && processor(chunks[i], f.late).Value?
                                then processor(chunks[i], f.late).result else "")
            && s.errs[i] == (if f.SawCancel? then Some(ContextDone)
                             else if f.Called? && processor(chunks[i], f.late).Failure?
                             then Some(ProcessorFailed(processor(chunks[i], f.late).reason)) else None)
  {
    if run != [] {
      var n := |run| - 1;
      SlotFollowsFate(chunks, processor, run[..n], i);
      CancelledIffCancelled(chunks, processor, run[..n]);
      if run[n].Cancel? || run[n].i != i {
        SlotsArePrivate(After(chunks, processor, run[..n]), chunks, processor, run[n], i);
      }
    }
  }

  /** Goroutine i's call went through. */
  predicate Succeeds(chunks: seq<string>, processor: Processor, run: seq<Event>, i: nat)
    requires i < |chunks|
  {
    var f := FateOf(run, i);
    f.Called? && processor(chunks[i], f.late).Value?
  }

  function ResultOf(chunks: seq<string>, processor: Processor, run: seq<Event>, i: nat): string
    requires i < |chunks| && Succeeds(chunks, processor, run, i)
  {
    processor(chunks[i], FateOf(run, i).late).result
  }

  /** For every interleaving and every moment of cancellation: no error is returned if and only if every
      goroutine's call went through, and then the results are the processor's, in chunk order. */
  lemma JoinIsExact(chunks: seq<string>, processor: Processor, run: seq<Event>)
    requires AllFinished(After(chunks, processor, run))
    ensures var r := Join(After(chunks, processor, run));
            && (r.Some? <==> forall i :: 0 <= i < |chunks| ==> Succeeds(chunks, processor, run, i))
            && (r.Some? ==> r.value == seq(|chunks|, i requires 0 <= i < |chunks| && Succeeds(chunks, processor, run, i)
                                                       => ResultOf(chunks, processor, run, i)))
  {
    var s := After(chunks, processor, run);
    forall i | 0 <= i < |chunks|
      ensures s.errs[i] == None <==> Succeeds(chunks, processor, run, i)
      ensures Succeeds(chunks, processor, run, i) ==> s.results[i] == ResultOf(chunks, processor, run, i)
    {
      SlotFollowsFate(chunks, processor, run, i);
      assert s.pcs[i] == Finished;
    }
  }

  /** A run that nobody cancels makes every goroutine call the processor in time. */
  lemma {:induction false} UncancelledFate(run: seq<Event>, i: nat)
    requires Cancel !in run
    ensures FateOf(run, i) in {NotStarted, InCall, Called(false)}
  {
    if run != [] {
      UncancelledFate(run[..|run| - 1], i);
    }
  }

  /** Without cancellation the outcome does not depend on the schedule. */
  lemma ScheduleDoesNotMatter(chunks: seq<string>, processor: Processor, run: seq<Event>, run': seq<Event>)
    requires AllFinished(After(chunks, processor, run)) && AllFinished(After(chunks, processor, run'))
    requires Cancel !in run && Cancel !in run'
    ensures Join(After(chunks, processor, run)) == Join(After(chunks, processor, run'))
  {
    JoinIsExact(chunks, processor, run);
    JoinIsExact(chunks, processor, run');
    forall i | 0 <= i < |chunks| ensures FateOf(run, i) == FateOf(run', i) == Called(false) {
      UncancelledFate(run, i);
      UncancelledFate(run', i);
      SlotFollowsFate(chunks, processor, run, i);
      SlotFollowsFate(chunks, processor, run', i);
      assert After(chunks, processor, run).pcs[i] == Finished;
      assert After(chunks, processor, run').pcs[i] == Finished;
    }
    var r, r' := Join(After(chunks, processor, run)), Join(After(chunks, processor, run'));
    assert forall i :: 0 <= i < |chunks| ==>
                         (Succeeds(chunks, processor, run, i) <==> Succeeds(chunks, processor, run', i));
    if r.Some? {
      assert forall i :: 0 <= i < |chunks| ==>
                           ResultOf(chunks, processor, run, i) == ResultOf(chunks, processor, run', i);
      assert r.value == r'.value;
    }
  }

  /** The wait is never in vain: whatever has happened, the goroutines can still all finish. */
  lemma {:induction false} WaitCanEnd(chunks: seq<string>, processor: Processor, run: seq<Event>, n: nat)
    returns (more: seq<Event>)
    requires n <= |chunks|
    ensures forall i :: 0 <= i < n ==> After(chunks, processor, run + more).pcs[i] == Finished
  {
    if n == 0 {
      more := [];
    } else {
      more := WaitCanEnd(chunks, processor, run, n - 1);
      var s0 := run + more;
      var s1, s2 := s0 + [Begin(n - 1)], s0 + [Begin(n - 1), Return(n - 1)];
      assert s1[..|s0|] == s0 && s2[..|s1|] == s1;
      ghost var t0, t1 := After(chunks, processor, s0), After(chunks, processor, s1);
      assert t1 == Step(t0, chunks, processor, Begin(n - 1));
      assert After(chunks, processor, s2) == Step(t1, chunks, processor, Return(n - 1));
      more := more + [Begin(n - 1), Return(n - 1)];
      assert run + more == s2;
    }
  }

  /** A single goroutine's call: of the processor on the text itself, in time if nobody cancels. */
  lemma OnlyChunk(text: string, processor: Processor, run: seq<Event>)
    requires AllFinished(After([text], processor, run))
    ensures Succeeds([text], processor, run, 0) ==>
              processor(text, FateOf(run, 0).late) == Value(ResultOf([text], processor, run, 0))
    ensures Cancel !in run ==>
              && FateOf(run, 0) == Called(false)
              && (Succeeds([text], processor, run, 0) <==> processor(text, false).Value?)
  {
    SlotFollowsFate([text], processor, run, 0);
    assert After([text], processor, run).pcs[0] == Finished;
    if Cancel !in run {
      UncancelledFate(run, 0);
    }
  }

  // ---- What decides a goroutine's fate ----

  /** The first step of goroutine i. */
  ghost predicate FirstBegin(run: seq<Event>, i: nat, k: nat) {
    k < |run| && run[k] == Begin(i) && Begin(i) !in run[..k]
  }

  lemma {:induction false} NotBegun(run: seq<Event>, i: nat)
    requires Begin(i) !in run
    ensures FateOf(run, i) == NotStarted
  {
    if run != [] {
      NotBegun(run[..|run| - 1], i);
    }
  }

  /** A goroutine whose first step comes after the cancellation never calls the processor and reports the
      cancellation; one whose first step comes before it always calls the processor. */
  lemma {:induction false} FirstStepDecides(run: seq<Event>, i: nat, k: nat)
    requires FirstBegin(run, i, k)
    ensures if Cancel in run[..k] then FateOf(run, i) == SawCancel
            else FateOf(run, i) == InCall || FateOf(run, i).Called?
  {
    var n := |run| - 1;
    if k == n {
      NotBegun(run[..n], i);
    } else {
      assert run[..n][..k] == run[..k];
      FirstStepDecides(run[..n], i, k);
    }
  }

  lemma BegunEarlier(run: seq<Event>, i: nat, b: nat)
    requires FirstBegin(run, i, b) && FateOf(run[..|run| - 1], i) != NotStarted
    ensures FirstBegin(run[..|run| - 1], i, b)
  {
    var n := |run| - 1;
    if b == n {
      NotBegun(run[..n], i);
    }
    assert run[..n][..b] == run[..b];
  }

  lemma {:induction false} StillInCall(run: seq<Event>, i: nat, b: nat)
    requires FirstBegin(run, i, b) && FateOf(run, i) == InCall
    ensures Return(i) !in run[b..]
  {
    var n := |run| - 1;
    if b < n {
      assert run[..n][..b] == run[..b];
      FirstStepDecides(run[..n], i, b);
      StillInCall(run[..n], i, b);
      assert run[b..] == run[..n][b..] + [run[n]];
    }
  }

  /** The processor's call ends at the first return after that, and is late if the cancellation came before. */
  lemma {:induction false} ReturnDecides(run: seq<Event>, i: nat, b: nat) returns (k: nat)
    requires FirstBegin(run, i, b) && FateOf(run, i).Called?
    ensures b < k < |run| && run[k] == Return(i) && Return(i) !in run[b..k]
    ensures FateOf(run, i).late <==> Cancel in run[..k]
  {
    k := |run| - 1;
    BegunEarlier(run, i, b);
    if FateOf(run[..k], i).Called? {
      var n := k;
      k := ReturnDecides(run[..n], i, b);
      assert run[..n][b..k] == run[b..k] && run[..n][..k] == run[..k];
    } else {
      StillInCall(run[..k], i, b);
    }
  }

  /** The scan of the errors after the wait. */
  method NoError(errs: array<Option<Error>>) returns (clean: bool)
    ensures clean <==> forall i :: 0 <= i < errs.Length ==> errs[i] == None
  {
    for k := 0 to errs.Length
      invariant forall i :: 0 <= i < k ==> errs[i] == None
    {
      if errs[k] != None {
        return false;
      }
    }
    return true;
  }

  /** The goroutines under a given schedule, on shared slices updated in place, and the wait for them. */
  method ForkAndJoin(chunks: seq<string>, processor: Processor, schedule: seq<Event>) returns (r: Option<seq<string>>)
    requires AllFinished(After(chunks, processor, schedule))
    ensures r == Join(After(chunks, processor, schedule))
  {
    var n := |chunks|;
    var results, errs, pcs := new string[n](_ => ""), new Option<Error>[n](_ => None), new PC[n](_ => Ready);
    var cancelled := false;
    for k := 0 to |schedule|
      invariant After(chunks, processor, schedule[..k]) == State(cancelled, pcs[..], results[..], errs[..])
    {
      assert schedule[..k + 1][..k] == schedule[..k];
      match schedule[k] {
        case Cancel =>
          cancelled := true;
        case Begin(i) =>
          if i < n && pcs[i] == Ready {
            if cancelled {
              errs[i] := Some(ContextDone);
              pcs[i] := Finished;
            } else {
              pcs[i] := Calling;
            }
          }
        case Return(i) =>
          if i < n && pcs[i] == Calling {
            match processor(chunks[i], cancelled) {
              case Value(v) => results[i] := v;
              case Failure(why) => errs[i] := Some(ProcessorFailed(why));
            }
            pcs[i] := Finished;
          }
      }
    }
    assert schedule[..|schedule|] == schedule;
    ghost var s := After(chunks, processor, schedule);
    assert s.errs == errs[..] && s.results == results[..];
    var clean := NoError(errs);
    assert s.errs == errs[..] && forall i :: 0 <= i < n ==> errs[i] == s.errs[i];
    return if clean then Some(results[..]) else None;
  }

  /** Process under a given schedule. Without an error the results are those of all the text's chunks. */
  method Process(m: Chunking.MapReduceWorker, text: string, white: char -> bool, processor: Processor,
                 schedule: seq<Event>)
    returns (r: Option<seq<string>>)
    requires m.Valid() && AllFinished(After(Chunking.Chunks(text, m.maxChunkSize, white), processor, schedule))
    ensures var chunks := Chunking.Chunks(text, m.maxChunkSize, white);
            && (r.Some? <==> forall i :: 0 <= i < |chunks| ==> Succeeds(chunks, processor, schedule, i))
            && (r.Some? ==> |r.value| == |chunks|
                            && forall i :: 0 <= i < |chunks| ==>
                                 r.value[i] == ResultOf(chunks, processor, schedule, i))
    ensures |text| <= m.maxChunkSize && r.Some? ==>
              && |r.value| == 1
              && (processor(text, false) == Value(r.value[0]) || processor(text, true) == Value(r.value[0]))
    ensures |text| <= m.maxChunkSize && Cancel !in schedule ==>
              match processor(text, false)
              case Value(v) => r == Some([v])
              case Failure(_) => r == None
  {
    var chunks := m.Chunk(text, white);
    r := ForkAndJoin(chunks, processor, schedule);
    JoinIsExact(chunks, processor, schedule);
    if |text| <= m.maxChunkSize {
      OnlyChunk(text, processor, schedule);
      OnlyResult(text, processor, schedule, r);
    }
  }

  /** What that means for the outcome of Process on a text that fits. */
  lemma OnlyResult(text: string, processor: Processor, run: seq<Event>, r: Option<seq<string>>)
    requires r.Some? <==> forall i :: 0 <= i < |[text]| ==> Succeeds([text], processor, run, i)
    requires r.Some? ==> |r.value| == 1 && r.value[0] == ResultOf([text], processor, run, 0)
    requires Cancel !in run ==>
               && FateOf(run, 0) == Called(false)
               && (Succeeds([text], processor, run, 0) <==> processor(text, false).Value?)
    ensures r.Some? ==>
              processor(text, false) == Value(r.value[0]) || processor(text, true) == Value(r.value[0])
    ensures Cancel !in run ==>
              match processor(text, false)
              case Value(v) => r == Some([v])
              case Failure(_) => r == None
  {
    if r.Some? {
      assert Succeeds([text], processor, run, 0);
      assert r.value == [r.value[0]];
    } else {
      assert !Succeeds([text], processor, run, 0);
    }
  }
}
