/** The bounded password-hashing pool: a buffered channel of tasks, worker loops draining it, and one
    result channel of capacity one per call. Each event is one channel operation; an event that is not
    possible when its turn comes is skipped. */
module HashingPool {
  import opened Options

  datatype Task = Task(id: nat, password: string, salt: string)

  type KeyDerivation = (string, string) -> string

  /** A caller of HashPassword, once its select on the task channel is over. */
  datatype Caller = Waiting | Returned(hash: string) | TimedOut | QueueFull

  datatype State = State(
    queue: seq<Task>,              // the task channel
    busy: map<nat, Task>,          // what each worker is hashing
    results: map<nat, string>,     // result channels holding a value
    callers: map<nat, Caller>,
    accepted: map<nat, Task>,      // tasks ever accepted
    hashed: seq<nat>)              // ids of the tasks hashed so far

  datatype Event =
    | Submit(task: Task)           // a call of HashPassword reaches its first select
    | Take(w: nat)                 // worker w receives from the task channel
    | Finish(w: nat)               // worker w sends the result
    | Receive(id: nat)             // the caller's second select takes the result
    | Timeout(id: nat)             // or sees its context done

  const INITIAL := State([], map[], map[], map[], map[], [])

  /** The lowest worker waiting for a task. */
  function Idle(busy: map<nat, Task>, workers: nat): Option<nat> {
    if workers == 0 then None
    else
      match Idle(busy, workers - 1)
      case Some(w) => Some(w)
      case None => if workers - 1 in busy then None else Some(workers - 1)
  }

  lemma {:induction false} IdleMeans(busy: map<nat, Task>, workers: nat)
    ensures match Idle(busy, workers)
            case Some(w) => w < workers && w !in busy
            case None => forall w :: 0 <= w < workers ==> w in busy
  {
    if workers > 0 {
      IdleMeans(busy, workers - 1);
    }
  }

  /** The worker has sent its result. */
  function Finished(s: State, w: nat, kdf: KeyDerivation): State
    requires w in s.busy
  {
    var t := s.busy[w];
    s.(busy := s.busy - {w}, results := s.results[t.id := kdf(t.password, t.salt)], hashed := s.hashed + [t.id])
  }

  function Step(s: State, workers: nat, queueSize: nat, kdf: KeyDerivation, e: Event): State {
    match e
    case Submit(task) =>
      if task.id in s.callers then s
      else if |s.queue| < queueSize then
        s.(queue := s.queue + [task], callers := s.callers[task.id := Waiting], accepted := s.accepted[task.id := task])
      else if queueSize == 0 && Idle(s.busy, workers).Some? then   // an unbuffered channel hands over directly
        s.(busy := s.busy[Idle(s.busy, workers).value := task], callers := s.callers[task.id := Waiting],
           accepted := s.accepted[task.id := task])
      else s.(callers := s.callers[task.id := QueueFull])
    case Take(w) =>
      if w >= workers || w in s.busy || s.queue == [] then s
      else s.(queue := s.queue[1..], busy := s.busy[w := s.queue[0]])
    case Finish(w) =>
      if w !in s.busy || s.busy[w].id in s.results then s   // a full result channel would block the worker
      else
        Finished(s, w, kdf)
    case Receive(id) =>
      if id !in s.results || id !in s.callers || s.callers[id] != Waiting then s
      else s.(results := s.results - {id}, callers := s.callers[id := Returned(s.results[id])])
    case Timeout(id) =>
      if id !in s.callers || s.callers[id] != Waiting then s
      else s.(callers := s.callers[id := TimedOut])
  }

  function After(run: seq<Event>, workers: nat, queueSize: nat, kdf: KeyDerivation): State {
    if run == [] then INITIAL
    else Step(After(run[..|run| - 1], workers, queueSize, kdf), workers, queueSize, kdf, run[|run| - 1])
  }

  // ---- What every interleaving keeps ----

  /** Tasks in the queue and at the workers are the accepted ones. */
  ghost predicate Known(s: State) {
    && (forall i :: 0 <= i < |s.queue| ==> s.queue[i].id in s.accepted && s.accepted[s.queue[i].id] == s.queue[i])
    && (forall w :: w in s.busy ==> s.busy[w].id in s.accepted && s.accepted[s.busy[w].id] == s.busy[w])
    && (forall i :: 0 <= i < |s.hashed| ==> s.hashed[i] in s.accepted)
  }

  /** No task is in two places. */
  ghost predicate Apart(s: State) {
    && (forall i, j :: 0 <= i < j < |s.queue| ==> s.queue[i].id != s.queue[j].id)
    && (forall w, v :: w in s.busy && v in s.busy && w != v ==> s.busy[w].id != s.busy[v].id)
    && (forall i, j :: 0 <= i < j < |s.hashed| ==> s.hashed[i] != s.hashed[j])
    && (forall i, w :: 0 <= i < |s.queue| && w in s.busy ==> s.queue[i].id != s.busy[w].id)
    && (forall i :: 0 <= i < |s.queue| ==> s.queue[i].id !in s.hashed)
    && (forall w :: w in s.busy ==> s.busy[w].id !in s.hashed)
  }

  ghost predicate InProgress(s: State, id: nat) {
    (exists i :: 0 <= i < |s.queue| && s.queue[i].id == id) || (exists w :: w in s.busy && s.busy[w].id == id)
  }

  /** No accepted task is lost. */
  ghost predicate Complete(s: State) {
    forall id :: id in s.accepted ==> id in s.hashed || InProgress(s, id)
  }

  /** Who has been accepted, and what waits in the result channels. */
  ghost predicate Tracked(s: State, kdf: KeyDerivation) {
    && (forall id :: id in s.accepted ==> id in s.callers && s.accepted[id].id == id && s.callers[id] != QueueFull)
    && (forall id :: id in s.callers && s.callers[id] != QueueFull ==> id in s.accepted)
    && (forall id :: id in s.results ==> id in s.hashed && id in s.accepted
                                         && s.results[id] == kdf(s.accepted[id].password, s.accepted[id].salt))
    && (forall id :: id in s.callers && s.callers[id].Returned? ==>
                       id in s.accepted && s.callers[id].hash == kdf(s.accepted[id].password, s.accepted[id].salt))
  }

  ghost predicate Bounded(s: State, workers: nat, queueSize: nat) {
    |s.queue| <= queueSize && forall w :: w in s.busy ==> w < workers
  }

  ghost predicate Good(s: State, kdf: KeyDerivation) {
    Known(s) && Apart(s) && Complete(s) && Tracked(s, kdf)
  }

  lemma QueueKeepsProgress(s: State, t: State, id: nat)
    requires InProgress(s, id)
    requires |s.queue| <= |t.queue| && forall i :: 0 <= i < |s.queue| ==> t.queue[i] == s.queue[i]
    requires forall v :: v in s.busy ==> v in t.busy && t.busy[v] == s.busy[v]
    ensures InProgress(t, id)
  {
    if i :| 0 <= i < |s.queue| && s.queue[i].id == id {
      assert t.queue[i].id == id;
    } else {
      var w :| w in s.busy && s.busy[w].id == id;
      assert t.busy[w].id == id;
    }
  }

  /** The bookkeeping of an accepted submission. */
  function Accept(s: State, task: Task): State {
    s.(callers := s.callers[task.id := Waiting], accepted := s.accepted[task.id := task])
  }

  lemma AcceptTracked(s: State, kdf: KeyDerivation, task: Task)
    requires Tracked(s, kdf) && Known(s) && task.id !in s.callers
    ensures Tracked(Accept(s, task), kdf) && Known(Accept(s, task)) && task.id !in s.accepted && task.id !in s.hashed
  {
  }

  /** An accepted submission, to the queue or to an idle worker. */
  lemma EnqueueGood(s: State, kdf: KeyDerivation, task: Task)
    requires Good(s, kdf) && task.id !in s.callers
    ensures Good(Accept(s, task).(queue := s.queue + [task]), kdf)
  {
    AcceptTracked(s, kdf, task);
    var t := Accept(s, task).(queue := s.queue + [task]);
    assert t.queue[|s.queue|] == task && forall i :: 0 <= i < |s.queue| ==> t.queue[i] == s.queue[i];
    EnqueueApart(s, t, task);
    AcceptComplete(s, t, task);
  }

  lemma AcceptComplete(s: State, t: State, task: Task)
    requires Complete(s) && t.accepted == s.accepted[task.id := task] && t.hashed == s.hashed && InProgress(t, task.id)
    requires |s.queue| <= |t.queue| && forall i :: 0 <= i < |s.queue| ==> t.queue[i] == s.queue[i]
    requires forall v :: v in s.busy ==> v in t.busy && t.busy[v] == s.busy[v]
    ensures Complete(t)
  {
    forall id | id in t.accepted && id != task.id && id !in s.hashed ensures InProgress(t, id) {
      QueueKeepsProgress(s, t, id);
    }
  }

  lemma EnqueueApart(s: State, t: State, task: Task)
    requires Apart(s) && Known(s) && task.id !in s.accepted && task.id !in s.hashed
    requires t.queue == s.queue + [task] && t.busy == s.busy && t.hashed == s.hashed
    ensures Apart(t)
  {
  }

  /** Moving accepted tasks about changes nothing for the callers. */
  lemma PlacesDoNotMatter(s: State, t: State, kdf: KeyDerivation)
    requires Tracked(s, kdf) && t == s.(queue := t.queue, busy := t.busy)
    ensures Tracked(t, kdf)
  {
  }

  lemma HandOverComplete(s: State, t: State, w: nat, task: Task)
    requires Complete(s) && w !in s.busy
    requires t.accepted == s.accepted[task.id := task] && t.hashed == s.hashed
    requires t.queue == s.queue && t.busy == s.busy[w := task]
    ensures Complete(t)
  {
    assert t.busy[w] == task && forall v :: v in s.busy ==> v in t.busy && t.busy[v] == s.busy[v];
    AcceptComplete(s, t, task);
  }

  lemma HandOverGood(s: State, kdf: KeyDerivation, w: nat, task: Task)
    requires Good(s, kdf) && task.id !in s.callers && w !in s.busy
    ensures Good(Accept(s, task).(busy := s.busy[w := task]), kdf)
  {
    var t := Accept(s, task).(busy := s.busy[w := task]);
    AcceptTracked(s, kdf, task);
    PlacesDoNotMatter(Accept(s, task), t, kdf);
    HandOverKnown(Accept(s, task), t, w, task);
    HandOverApart(s, t, w, task);
    HandOverComplete(s, t, w, task);
  }

  lemma HandOverKnown(s: State, t: State, w: nat, task: Task)
    requires Known(s) && task.id in s.accepted && s.accepted[task.id] == task
    requires t == s.(busy := s.busy[w := task])
    ensures Known(t)
  {
  }

  lemma HandOverApart(s: State, t: State, w: nat, task: Task)
    requires Apart(s) && Known(s) && task.id !in s.accepted && task.id !in s.hashed && w !in s.busy
    requires t.queue == s.queue && t.busy == s.busy[w := task] && t.hashed == s.hashed
    ensures Apart(t)
  {
  }

  lemma TakeApart(s: State, t: State, w: nat)
    requires Apart(s) && s.queue != [] && w !in s.busy
    requires t.queue == s.queue[1..] && t.busy == s.busy[w := s.queue[0]] && t.hashed == s.hashed
    ensures Apart(t)
  {
    assert forall i :: 0 <= i < |t.queue| ==> t.queue[i] == s.queue[i + 1];
  }

  lemma TakeKnown(s: State, t: State, w: nat)
    requires Known(s) && s.queue != [] && t == s.(queue := s.queue[1..], busy := s.busy[w := s.queue[0]])
    ensures Known(t)
  {
  }

  lemma TakeComplete(s: State, t: State, w: nat)
    requires Complete(s) && s.queue != [] && w !in s.busy
    requires t == s.(queue := s.queue[1..], busy := s.busy[w := s.queue[0]])
    ensures Complete(t)
  {
    forall id | id in t.accepted && id !in t.hashed ensures InProgress(t, id) {
      TakeKeepsProgress(s, t, w, id);
    }
  }

  lemma TakeGood(s: State, kdf: KeyDerivation, w: nat)
    requires Good(s, kdf) && s.queue != [] && w !in s.busy
    ensures Good(s.(queue := s.queue[1..], busy := s.busy[w := s.queue[0]]), kdf)
  {
    var t := s.(queue := s.queue[1..], busy := s.busy[w := s.queue[0]]);
    TakeKnown(s, t, w);
    TakeApart(s, t, w);
    TakeComplete(s, t, w);
    PlacesDoNotMatter(s, t, kdf);
  }

  lemma TakeKeepsProgress(s: State, t: State, w: nat, id: nat)
    requires InProgress(s, id) && s.queue != [] && w !in s.busy
    requires t.queue == s.queue[1..] && t.busy == s.busy[w := s.queue[0]]
    ensures InProgress(t, id)
  {
    if i :| 0 <= i < |s.queue| && s.queue[i].id == id {
      assert if i == 0 then t.busy[w].id == id else t.queue[i - 1].id == id;
    } else {
      var v :| v in s.busy && s.busy[v].id == id;
      assert t.busy[v].id == id;
    }
  }

  lemma FinishTracked(s: State, kdf: KeyDerivation, w: nat)
    requires Known(s) && Tracked(s, kdf) && w in s.busy
    ensures Known(Finished(s, w, kdf)) && Tracked(Finished(s, w, kdf), kdf)
  {
    var t := Finished(s, w, kdf);
    assert t.hashed[|s.hashed|] == s.busy[w].id;
  }

  lemma FinishApart(s: State, kdf: KeyDerivation, w: nat)
    requires Apart(s) && w in s.busy
    ensures Apart(Finished(s, w, kdf))
  {
  }

  lemma FinishGood(s: State, kdf: KeyDerivation, w: nat)
    requires Good(s, kdf) && w in s.busy
    ensures Good(Finished(s, w, kdf), kdf)
  {
    var task, t := s.busy[w], Finished(s, w, kdf);
    assert forall id :: id in t.hashed <==> id in s.hashed || id == task.id by {
      assert t.hashed[|s.hashed|] == task.id;
    }
    forall id | id in t.accepted && id !in t.hashed ensures InProgress(t, id) {
      assert InProgress(s, id);
      if v :| v in s.busy && s.busy[v].id == id {
        assert v in t.busy && t.busy[v].id == id;
      }
    }
    FinishTracked(s, kdf, w);
    FinishApart(s, kdf, w);
  }

  /** Nothing about tasks depends on who waits for them. */
  lemma CallersDoNotMatter(s: State, t: State)
    requires Known(s) && Apart(s) && Complete(s)
    requires t == s.(callers := t.callers, results := t.results)
    ensures Known(t) && Apart(t) && Complete(t)
  {
    forall id | id in t.accepted && id !in t.hashed ensures InProgress(t, id) {
      QueueKeepsProgress(s, t, id);
    }
  }

  lemma CallersGood(s: State, kdf: KeyDerivation, id: nat, c: Caller, results: map<nat, string>)
    requires Good(s, kdf) && results.Keys <= s.results.Keys && forall x :: x in results ==> results[x] == s.results[x]
    requires if id in s.accepted then c != QueueFull else c == QueueFull
    requires c.Returned? ==> c.hash == kdf(s.accepted[id].password, s.accepted[id].salt)
    ensures Good(s.(callers := s.callers[id := c], results := results), kdf)
  {
    CallersDoNotMatter(s, s.(callers := s.callers[id := c], results := results));
  }

  lemma SubmitGood(s: State, workers: nat, queueSize: nat, kdf: KeyDerivation, task: Task)
    requires Good(s, kdf)
    ensures Good(Step(s, workers, queueSize, kdf, Submit(task)), kdf)
  {
    IdleMeans(s.busy, workers);
    if task.id !in s.callers {
      if |s.queue| < queueSize {
        EnqueueGood(s, kdf, task);
      } else if queueSize == 0 && Idle(s.busy, workers).Some? {
        HandOverGood(s, kdf, Idle(s.busy, workers).value, task);
      } else {
        CallersGood(s, kdf, task.id, QueueFull, s.results);
      }
    }
  }

  lemma WorkerGood(s: State, workers: nat, queueSize: nat, kdf: KeyDerivation, e: Event)
    requires Good(s, kdf) && (e.Take? || e.Finish?)
    ensures Good(Step(s, workers, queueSize, kdf, e), kdf)
  {
    if e.Take? {
      if e.w < workers && e.w !in s.busy && s.queue != [] {
        TakeGood(s, kdf, e.w);
      }
    } else if e.w in s.busy && s.busy[e.w].id !in s.results {
      FinishGood(s, kdf, e.w);
    }
  }

  lemma TimeoutGood(s: State, workers: nat, queueSize: nat, kdf: KeyDerivation, id: nat)
    requires Good(s, kdf)
    ensures Good(Step(s, workers, queueSize, kdf, Timeout(id)), kdf)
  {
    if id in s.callers && s.callers[id] == Waiting {
      CallersGood(s, kdf, id, TimedOut, s.results);
      assert s.(callers := s.callers[id := TimedOut], results := s.results) == s.(callers := s.callers[id := TimedOut]);
    }
  }

  lemma ReceiveGood(s: State, workers: nat, queueSize: nat, kdf: KeyDerivation, id: nat)
    requires Good(s, kdf)
    ensures Good(Step(s, workers, queueSize, kdf, Receive(id)), kdf)
  {
    if id in s.callers && s.callers[id] == Waiting && id in s.results {
      CallersGood(s, kdf, id, Returned(s.results[id]), s.results - {id});
    }
  }

  lemma StepGood(s: State, workers: nat, queueSize: nat, kdf: KeyDerivation, e: Event)
    requires Good(s, kdf)
    ensures Good(Step(s, workers, queueSize, kdf, e), kdf)
  {
    if e.Submit? {
      SubmitGood(s, workers, queueSize, kdf, e.task);
    } else if e.Take? || e.Finish? {
      WorkerGood(s, workers, queueSize, kdf, e);
    } else if e.Receive? {
      ReceiveGood(s, workers, queueSize, kdf, e.id);
    } else {
      TimeoutGood(s, workers, queueSize, kdf, e.id);
    }
  }

  lemma StepBounded(s: State, workers: nat, queueSize: nat, kdf: KeyDerivation, e: Event)
    requires Bounded(s, workers, queueSize)
    ensures Bounded(Step(s, workers, queueSize, kdf, e), workers, queueSize)
  {
    IdleMeans(s.busy, workers);
  }

  lemma {:induction false} RunInvariant(run: seq<Event>, workers: nat, queueSize: nat, kdf: KeyDerivation)
    ensures var s := After(run, workers, queueSize, kdf);
            Good(s, kdf) && Bounded(s, workers, queueSize)
  {
    if run != [] {
      var s := After(run[..|run| - 1], workers, queueSize, kdf);
      RunInvariant(run[..|run| - 1], workers, queueSize, kdf);
      StepGood(s, workers, queueSize, kdf, run[|run| - 1]);
      StepBounded(s, workers, queueSize, kdf, run[|run| - 1]);
    }
  }

  // ---- Theorems ----

  lemma {:induction false} BelowCount(ws: set<nat>, n: nat)
    requires forall w :: w in ws ==> w < n
    ensures |ws| <= n
  {
    if n > 0 {
      BelowCount(ws - {n - 1}, n - 1);
    } else {
      assert ws == {};
    }
  }

  /** Accepted tasks that are not yet hashed never exceed the queue and the workers together. */
  lemma UnfinishedAreBounded(run: seq<Event>, workers: nat, queueSize: nat, kdf: KeyDerivation)
    ensures var s := After(run, workers, queueSize, kdf);
            && |s.queue| + |s.busy| <= queueSize + workers
            && |s.accepted| == |s.queue| + |s.busy| + |s.hashed|
  {
    var s := After(run, workers, queueSize, kdf);
    RunInvariant(run, workers, queueSize, kdf);
    BelowCount(s.busy.Keys, workers);
    assert |s.busy.Keys| == |s.busy|;
    AcceptedCount(run, workers, queueSize, kdf);
  }

  ghost predicate Counted(s: State) {
    |s.accepted| == |s.queue| + |s.busy| + |s.hashed| && s.accepted.Keys <= s.callers.Keys
  }

  lemma BusySize(busy: map<nat, Task>, w: nat)
    requires w in busy
    ensures |busy - {w}| == |busy| - 1
  {
    assert (busy - {w}).Keys == busy.Keys - {w};
    assert |(busy - {w}).Keys| == |busy - {w}| && |busy.Keys| == |busy|;
  }

  lemma BusyMore(busy: map<nat, Task>, w: nat, task: Task)
    requires w !in busy
    ensures |busy[w := task]| == |busy| + 1
  {
  }

  lemma SubmitCounted(s: State, workers: nat, queueSize: nat, kdf: KeyDerivation, task: Task)
    requires Counted(s) && task.id !in s.callers
    ensures Counted(Step(s, workers, queueSize, kdf, Submit(task)))
  {
    IdleMeans(s.busy, workers);
    assert task.id !in s.accepted;
    if |s.queue| >= queueSize && Idle(s.busy, workers).Some? {
      BusyMore(s.busy, Idle(s.busy, workers).value, task);
    }
  }

  lemma StepCounted(s: State, workers: nat, queueSize: nat, kdf: KeyDerivation, e: Event)
    requires Counted(s)
    ensures Counted(Step(s, workers, queueSize, kdf, e))
  {
    if e.Submit? {
      if e.task.id !in s.callers {
        SubmitCounted(s, workers, queueSize, kdf, e.task);
      }
    } else if e.Take? {
      if e.w !in s.busy && s.queue != [] {
        BusyMore(s.busy, e.w, s.queue[0]);
      }
    } else if e.Finish? && e.w in s.busy {
      BusySize(s.busy, e.w);
    }
  }

  lemma {:induction false} AcceptedCount(run: seq<Event>, workers: nat, queueSize: nat, kdf: KeyDerivation)
    ensures Counted(After(run, workers, queueSize, kdf))
  {
    if run != [] {
      AcceptedCount(run[..|run| - 1], workers, queueSize, kdf);
      StepCounted(After(run[..|run| - 1], workers, queueSize, kdf), workers, queueSize, kdf, run[|run| - 1]);
    }
  }

  /** A worker never blocks on a result channel, not even for a caller that has given up. */
  lemma SendNeverBlocks(run: seq<Event>, workers: nat, queueSize: nat, kdf: KeyDerivation, w: nat)
    requires w in After(run, workers, queueSize, kdf).busy
    ensures var s := After(run, workers, queueSize, kdf);
            s.busy[w].id !in s.results && w !in Step(s, workers, queueSize, kdf, Finish(w)).busy
  {
    RunInvariant(run, workers, queueSize, kdf);
  }

  /** A return without error is the hash of the caller's own password and salt. */
  lemma ReturnIsOwnHash(run: seq<Event>, workers: nat, queueSize: nat, kdf: KeyDerivation, id: nat)
    requires id in After(run, workers, queueSize, kdf).callers
    requires After(run, workers, queueSize, kdf).callers[id].Returned?
    ensures var s := After(run, workers, queueSize, kdf);
            id in s.accepted && s.callers[id].hash == kdf(s.accepted[id].password, s.accepted[id].salt)
  {
    RunInvariant(run, workers, queueSize, kdf);
  }

  /** The task a step accepts, if it does. */
  function NewTask(s: State, t: State, e: Event): seq<Task> {
    if e.Submit? && e.task.id in t.accepted && e.task.id !in s.accepted then [e.task] else []
  }

  /** The task a step puts into a worker's hands: from the queue, or past it. */
  function Handed(s: State, t: State, e: Event): seq<Task> {
    match e
    case Take(w) => if w !in s.busy && w in t.busy then [t.busy[w]] else []
    case Submit(_) => if t.queue == s.queue then NewTask(s, t, e) else []
    case _ => []
  }

  /** The tasks accepted in a run, in order. */
  function Entered(run: seq<Event>, workers: nat, queueSize: nat, kdf: KeyDerivation): seq<Task> {
    if run == [] then []
    else
      var n := |run| - 1;
      Entered(run[..n], workers, queueSize, kdf)
      + NewTask(After(run[..n], workers, queueSize, kdf), After(run, workers, queueSize, kdf), run[n])
  }

  /** The tasks workers have received in a run, in order. */
  function Started(run: seq<Event>, workers: nat, queueSize: nat, kdf: KeyDerivation): seq<Task> {
    if run == [] then []
    else
      var n := |run| - 1;
      Started(run[..n], workers, queueSize, kdf)
      + Handed(After(run[..n], workers, queueSize, kdf), After(run, workers, queueSize, kdf), run[n])
  }

  lemma StepInOrder(s: State, workers: nat, queueSize: nat, kdf: KeyDerivation, e: Event)
    requires Counted(s) && Bounded(s, workers, queueSize)
    ensures var t := Step(s, workers, queueSize, kdf, e); Handed(s, t, e) + t.queue == s.queue + NewTask(s, t, e)
  {
    var t := Step(s, workers, queueSize, kdf, e);
    if e.Submit? && t.queue != s.queue {
      assert Handed(s, t, e) == [];
    }
  }

  lemma Regroup<T>(a: seq<T>, b: seq<T>, c: seq<T>, h: seq<T>, q: seq<T>, x: seq<T>)
    requires a + b == c && h + q == b + x
    ensures (a + h) + q == c + x
  {
    assert (a + h) + q == a + (h + q) == (a + b) + x;
  }

  /** First in, first out: what workers have received, and then the queue, is what was accepted, in order. */
  lemma {:induction false} FirstInFirstOut(run: seq<Event>, workers: nat, queueSize: nat, kdf: KeyDerivation)
    ensures Started(run, workers, queueSize, kdf) + After(run, workers, queueSize, kdf).queue
            == Entered(run, workers, queueSize, kdf)
  {
    if run != [] {
      var n := |run| - 1;
      var s, t := After(run[..n], workers, queueSize, kdf), After(run, workers, queueSize, kdf);
      FirstInFirstOut(run[..n], workers, queueSize, kdf);
      RunInvariant(run[..n], workers, queueSize, kdf);
      AcceptedCount(run[..n], workers, queueSize, kdf);
      StepInOrder(s, workers, queueSize, kdf, run[n]);
      Regroup(Started(run[..n], workers, queueSize, kdf), s.queue, Entered(run[..n], workers, queueSize, kdf),
              Handed(s, t, run[n]), t.queue, NewTask(s, t, run[n]));
    }
  }

  predicate Refuses(s: State, workers: nat, queueSize: nat) {
    |s.queue| >= queueSize && (queueSize == 0 ==> forall w :: 0 <= w < workers ==> w in s.busy)
  }

  lemma RefusedIfRefuses(s: State, workers: nat, queueSize: nat, kdf: KeyDerivation, task: Task)
    requires task.id !in s.callers
    ensures var t := Step(s, workers, queueSize, kdf, Submit(task));
            && task.id in t.callers
            && (if Refuses(s, workers, queueSize) then t == s.(callers := s.callers[task.id := QueueFull])
                else t.callers == s.callers[task.id := Waiting] && t.accepted == s.accepted[task.id := task])
  {
    IdleMeans(s.busy, workers);
  }

  lemma {:induction false} AllBusy(busy: set<nat>, workers: nat)
    requires forall w :: w in busy ==> w < workers
    ensures |busy| == workers <==> forall w :: 0 <= w < workers ==> w in busy
  {
    if workers == 0 {
      assert busy == {};
    } else {
      var last := workers - 1;
      AllBusy(busy - {last}, last);
      BelowCount(busy - {last}, last);
    }
  }

  /** In every reachable state a new call gets the queue-full error if and only if the accepted tasks that are
      not yet hashed fill the queue on top of the busy workers or, without a queue, occupy every worker. */
  lemma RefusedExactlyWhenFull(run: seq<Event>, workers: nat, queueSize: nat, kdf: KeyDerivation,
                                                  task: Task)
    requires task.id !in After(run, workers, queueSize, kdf).callers
    ensures var s := After(run, workers, queueSize, kdf);
            var t := Step(s, workers, queueSize, kdf, Submit(task));
            && task.id in t.callers
            && (t.callers[task.id] == QueueFull
                <==> |s.accepted| - |s.hashed| == if queueSize == 0 then workers else queueSize + |s.busy|)
  {
    var s := After(run, workers, queueSize, kdf);
    RunInvariant(run, workers, queueSize, kdf);
    AcceptedCount(run, workers, queueSize, kdf);
    RefusedIfRefuses(s, workers, queueSize, kdf, task);
    AllBusy(s.busy.Keys, workers);
    assert |s.busy.Keys| == |s.busy|;
  }

  function Work(s: State): nat {
    2 * |s.queue| + |s.busy|
  }

  /** Every step a worker takes lowers the work left. */
  lemma WorkerStepsLowerWork(s: State, workers: nat, queueSize: nat, kdf: KeyDerivation, w: nat)
    ensures var t := Step(s, workers, queueSize, kdf, Take(w)); t == s || Work(t) < Work(s)
    ensures var t := Step(s, workers, queueSize, kdf, Finish(w)); t == s || Work(t) < Work(s)
  {
    if w in s.busy {
      BusySize(s.busy, w);
    }
  }

  ghost predicate CanStep(s: State, workers: nat, queueSize: nat, kdf: KeyDerivation) {
    exists w: nat :: Step(s, workers, queueSize, kdf, Take(w)) != s || Step(s, workers, queueSize, kdf, Finish(w)) != s
  }

  /** While there is work, some worker can take a step; when there is none, every accepted task has been
      hashed; and at no time has a task been hashed twice. */
  lemma WorkGetsDone(run: seq<Event>, workers: nat, queueSize: nat, kdf: KeyDerivation)
    ensures var s := After(run, workers, queueSize, kdf);
            && (Work(s) > 0 && workers > 0 ==> CanStep(s, workers, queueSize, kdf))
            && (Work(s) == 0 ==> Drained(s))
            && (forall i, j :: 0 <= i < j < |s.hashed| ==> s.hashed[i] != s.hashed[j])
  {
    var s := After(run, workers, queueSize, kdf);
    RunInvariant(run, workers, queueSize, kdf);
    if Work(s) > 0 && workers > 0 {
      WorkerCanStep(s, workers, queueSize, kdf);
    }
    if Work(s) == 0 {
      NoWorkIsDrained(s, kdf);
    }
  }

  lemma WorkerCanStep(s: State, workers: nat, queueSize: nat, kdf: KeyDerivation)
    requires Good(s, kdf) && Work(s) > 0 && workers > 0
    ensures CanStep(s, workers, queueSize, kdf)
  {
    if w: nat :| w in s.busy {
      assert s.busy[w].id !in s.results;
      assert w !in Step(s, workers, queueSize, kdf, Finish(w)).busy;
    } else {
      assert s.busy.Keys == {};
      assert 0 in Step(s, workers, queueSize, kdf, Take(0)).busy;
    }
  }

  ghost predicate WorkerSteps(es: seq<Event>) {
    forall i :: 0 <= i < |es| ==> es[i].Take? || es[i].Finish?
  }

  lemma WorkerStepKeepsCallers(s: State, workers: nat, queueSize: nat, kdf: KeyDerivation, e: Event)
    requires e.Take? || e.Finish?
    ensures var t := Step(s, workers, queueSize, kdf, e); t.accepted == s.accepted && t.callers == s.callers
  {
  }

  lemma Extend(run: seq<Event>, workers: nat, queueSize: nat, kdf: KeyDerivation, e: Event)
    ensures After(run + [e], workers, queueSize, kdf)
            == Step(After(run, workers, queueSize, kdf), workers, queueSize, kdf, e)
  {
    assert (run + [e])[..|run|] == run;
  }

  ghost predicate Drained(s: State) {
    forall id :: id in s.accepted <==> id in s.hashed
  }

  function Exec(s: State, workers: nat, queueSize: nat, kdf: KeyDerivation, es: seq<Event>): State
    decreases |es|
  {
    if es == [] then s else Exec(Step(s, workers, queueSize, kdf, es[0]), workers, queueSize, kdf, es[1..])
  }

  lemma ExecCons(s: State, workers: nat, queueSize: nat, kdf: KeyDerivation, e: Event, es: seq<Event>)
    ensures Exec(s, workers, queueSize, kdf, [e] + es)
            == Exec(Step(s, workers, queueSize, kdf, e), workers, queueSize, kdf, es)
  {
    assert ([e] + es)[1..] == es;
  }

  lemma {:induction false} ExecIsAfter(run: seq<Event>, workers: nat, queueSize: nat, kdf: KeyDerivation,
                                       es: seq<Event>)
    ensures After(run + es, workers, queueSize, kdf)
            == Exec(After(run, workers, queueSize, kdf), workers, queueSize, kdf, es)
    decreases |es|
  {
    if es == [] {
      assert run + es == run;
    } else {
      assert run + [es[0]] + es[1..] == run + es;
      Extend(run, workers, queueSize, kdf, es[0]);
      ExecIsAfter(run + [es[0]], workers, queueSize, kdf, es[1..]);
    }
  }

  lemma NoWorkIsDrained(s: State, kdf: KeyDerivation)
    requires Good(s, kdf) && Work(s) == 0
    ensures Drained(s)
  {
    assert s.busy.Keys == {};
    forall id | id in s.accepted ensures id in s.hashed {
      assert id in s.hashed || InProgress(s, id);
    }
  }

  lemma NextStep(s: State, workers: nat, queueSize: nat, kdf: KeyDerivation) returns (e: Event)
    requires Good(s, kdf) && workers > 0 && Work(s) > 0
    ensures e.Take? || e.Finish?
    ensures Work(Step(s, workers, queueSize, kdf, e)) < Work(s)
  {
    WorkerCanStep(s, workers, queueSize, kdf);
    var w: nat :| Step(s, workers, queueSize, kdf, Take(w)) != s || Step(s, workers, queueSize, kdf, Finish(w)) != s;
    e := if Step(s, workers, queueSize, kdf, Take(w)) != s then Take(w) else Finish(w);
    WorkerStepsLowerWork(s, workers, queueSize, kdf, w);
  }

  ghost predicate DrainedFrom(s: State, t: State) {
    t.accepted == s.accepted && t.callers == s.callers && Drained(t)
  }

  lemma DrainMore(s: State, workers: nat, queueSize: nat, kdf: KeyDerivation, e: Event, rest: seq<Event>)
    requires (e.Take? || e.Finish?) && WorkerSteps(rest)
    requires DrainedFrom(Step(s, workers, queueSize, kdf, e),
                         Exec(Step(s, workers, queueSize, kdf, e), workers, queueSize, kdf, rest))
    ensures WorkerSteps([e] + rest) && DrainedFrom(s, Exec(s, workers, queueSize, kdf, [e] + rest))
  {
    WorkerStepKeepsCallers(s, workers, queueSize, kdf, e);
    ExecCons(s, workers, queueSize, kdf, e, rest);
  }

  lemma {:induction false} DrainState(s: State, workers: nat, queueSize: nat, kdf: KeyDerivation)
    returns (more: seq<Event>)
    requires Good(s, kdf) && workers > 0
    ensures WorkerSteps(more) && |more| <= Work(s)
    ensures DrainedFrom(s, Exec(s, workers, queueSize, kdf, more))
    decreases Work(s)
  {
    if Work(s) == 0 {
      more := [];
      NoWorkIsDrained(s, kdf);
    } else {
      var e := NextStep(s, workers, queueSize, kdf);
      StepGood(s, workers, queueSize, kdf, e);
      var rest := DrainState(Step(s, workers, queueSize, kdf, e), workers, queueSize, kdf);
      more := [e] + rest;
      DrainMore(s, workers, queueSize, kdf, e, rest);
    }
  }

  /** From every reachable state the workers alone, in as many steps as there is work, hash every accepted
      task, whatever the callers do or have given up doing. */
  lemma Drain(run: seq<Event>, workers: nat, queueSize: nat, kdf: KeyDerivation) returns (more: seq<Event>)
    requires workers > 0
    ensures WorkerSteps(more) && |more| <= Work(After(run, workers, queueSize, kdf))
    ensures var s, t := After(run, workers, queueSize, kdf), After(run + more, workers, queueSize, kdf);
            t.accepted == s.accepted && t.callers == s.callers && Drained(t)
  {
    RunInvariant(run, workers, queueSize, kdf);
    more := DrainState(After(run, workers, queueSize, kdf), workers, queueSize, kdf);
    ExecIsAfter(run, workers, queueSize, kdf, more);
  }

  // ---- The pool ----

  class WorkerPool {
    const workerCount: nat
    const queueSize: nat
    const kdf: KeyDerivation
    var tasks: seq<Task>
    var hashing: map<nat, Task>       // where each worker's loop stands
    var resultChs: map<nat, string>
    var callers: map<nat, Caller>     // where each call of HashPassword stands
    ghost var run: seq<Event>         // everything that has happened

    ghost function Now(): State
      reads this
    {
      After(run, workerCount, queueSize, kdf)
    }

    /** The pool is what the run so far makes of it. */
    ghost predicate Valid()
      reads this
    {
      tasks == Now().queue && hashing == Now().busy && resultChs == Now().results && callers == Now().callers
    }

    constructor (workerCount: nat, queueSize: nat, kdf: KeyDerivation)
      ensures Valid() && run == []
      ensures this.workerCount == workerCount && this.queueSize == queueSize && this.kdf == kdf
    {
      this.workerCount, this.queueSize, this.kdf := workerCount, queueSize, kdf;
      tasks, hashing, resultChs, callers, run := [], map[], map[], map[], [];
    }

    /** The first select of HashPassword: false is ErrHashingQueueFull. */
    method Submit(task: Task) returns (ok: bool)
      requires Valid() && task.id !in callers
      modifies this
      ensures Valid() && run == old(run) + [Event.Submit(task)]
      ensures !ok <==> Refuses(old(Now()), workerCount, queueSize)
      ensures callers == old(callers)[task.id := if ok then Waiting else QueueFull]
      ensures ok ==> task.id in Now().accepted && Now().accepted[task.id] == task
      ensures |tasks| + |hashing| <= queueSize + workerCount
    {
      Extend(run, workerCount, queueSize, kdf, Event.Submit(task));
      RefusedIfRefuses(Now(), workerCount, queueSize, kdf, task);
      UnfinishedAreBounded(run + [Event.Submit(task)], workerCount, queueSize, kdf);
      IdleMeans(hashing, workerCount);
      run := run + [Event.Submit(task)];
      if |tasks| < queueSize {
        tasks := tasks + [task];
        callers := callers[task.id := Waiting];
        return true;
      }
      var idle := Idle(hashing, workerCount);
      if queueSize == 0 && idle.Some? {
        hashing := hashing[idle.value := task];
        callers := callers[task.id := Waiting];
        return true;
      }
      callers := callers[task.id := QueueFull];
      return false;
    }

    /** One round of a worker's loop: receive, hash, send. */
    method Take(w: nat)
      requires Valid() && w < workerCount && w !in hashing && tasks != []
      modifies this
      ensures Valid() && run == old(run) + [Event.Take(w)]
      ensures tasks == old(tasks)[1..] && hashing == old(hashing)[w := old(tasks)[0]]
    {
      Extend(run, workerCount, queueSize, kdf, Event.Take(w));
      run := run + [Event.Take(w)];
      hashing := hashing[w := tasks[0]];
      tasks := tasks[1..];
    }

    /** The send goes through at once: nothing waits in the channel of a task that is being hashed. */
    method Finish(w: nat)
      requires Valid() && w in hashing
      modifies this
      ensures Valid() && run == old(run) + [Event.Finish(w)]
      ensures old(hashing)[w].id !in old(resultChs) && hashing == old(hashing) - {w}
      ensures var task := old(hashing)[w];
              resultChs == old(resultChs)[task.id := kdf(task.password, task.salt)]
    {
      SendNeverBlocks(run, workerCount, queueSize, kdf, w);
      Extend(run, workerCount, queueSize, kdf, Event.Finish(w));
      run := run + [Event.Finish(w)];
      var task := hashing[w];
      var hash := kdf(task.password, task.salt);
      resultChs := resultChs[task.id := hash];
      hashing := hashing - {w};
    }

    /** The second select of HashPassword: the result, which is the hash of what this call submitted ... */
    method Receive(id: nat) returns (hash: string)
      requires Valid() && id in resultChs && id in callers && callers[id] == Waiting
      modifies this
      ensures Valid() && run == old(run) + [Event.Receive(id)]
      ensures callers == old(callers)[id := Returned(hash)]
      ensures id in Now().accepted && hash == kdf(Now().accepted[id].password, Now().accepted[id].salt)
    {
      Extend(run, workerCount, queueSize, kdf, Event.Receive(id));
      hash := resultChs[id];
      callers := callers[id := Returned(hash)];
      resultChs := resultChs - {id};
      run := run + [Event.Receive(id)];
      ReturnIsOwnHash(run, workerCount, queueSize, kdf, id);
    }

    /** ... or the context is done first, and the task goes on without its caller. */
    method Timeout(id: nat)
      requires Valid() && id in callers && callers[id] == Waiting
      modifies this`callers, this`run
      ensures Valid() && run == old(run) + [Event.Timeout(id)]
      ensures callers == old(callers)[id := TimedOut]
    {
      Extend(run, workerCount, queueSize, kdf, Event.Timeout(id));
      callers := callers[id := TimedOut];
      run := run + [Event.Timeout(id)];
    }
  }
}
