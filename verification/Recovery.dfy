/** Crash safety of the platform engine over any number of crashes and whatever the ids. */
module Recovery {
  import opened Decimal
  import opened EngineRuns
  import opened Options
  import opened WriteAheadLog

  /** Every entry that went through appendWAL since it can matter to the memory. */
  function Submitted(s: State): set<Entry> {
    Entries(s.log) + Entries(s.unlogged)
  }

  // ---- What every step keeps ----

  /** A request past appendWAL is where its write left it, and a written acknowledgement is in the log. */
  ghost predicate Logged(s: State) {
    && (forall r :: r in s.requests && s.requests[r].pc != Admitted
                    ==> s.requests[r].entry in if s.requests[r].logged then s.log else s.unlogged)
    && (forall q :: q in s.acknowledged && q.logged ==> q.entry in s.log)
  }

  /** Nothing is in memory that has not been submitted. */
  ghost predicate Sourced(s: State) {
    TablesWithin(s.mem, Submitted(s)) && KeysWithin(s.mem, Submitted(s))
  }

  /** A handler standing at one of `pcs` serves the entry. */
  ghost predicate Awaits(s: State, e: Entry, pcs: set<PC>) {
    exists r :: r in s.requests && s.requests[r].pc in pcs && s.requests[r].entry == e
  }

  /** What was submitted is in its table, or its handler is still about to store it. */
  ghost predicate TablesFull(s: State) {
    forall e :: e in Submitted(s) ==> Present(s.mem, e) || Awaits(s, e, {Appended})
  }

  ghost predicate KeysFull(s: State) {
    forall e :: e in Submitted(s) && e.kind.Generate? ==>
                  PlanKey(e.id) in s.mem.redisMock || Awaits(s, e, {Appended, Stored})
  }

  lemma LogStep(s: State, max: nat, e: Event)
    ensures var t := Step(s, max, e);
            t.log == s.log
            || (e.Append? && e.ok && AtPC(s, e.r, Admitted) && t.log == s.log + [s.requests[e.r].entry])
  {
  }

  lemma SubmittedStep(s: State, max: nat, e: Event)
    ensures var t := Step(s, max, e);
            Submitted(t) == if e.Crash? then Entries(s.log)
                            else if e.Append? && AtPC(s, e.r, Admitted) then Submitted(s) + {s.requests[e.r].entry}
                            else Submitted(s)
  {
    if e.Append? && AtPC(s, e.r, Admitted) {
      EntriesAppend(if e.ok then s.log else s.unlogged, s.requests[e.r].entry);
    }
  }

  lemma StepLogged(s: State, max: nat, e: Event)
    requires Logged(s)
    ensures Logged(Step(s, max, e))
  {
    var t := Step(s, max, e);
    LogStep(s, max, e);
    assert forall x :: x in s.log ==> x in t.log;
    if e.Append? && AtPC(s, e.r, Admitted) {
      var lines := if e.ok then t.log else t.unlogged;
      assert lines[|lines| - 1] == s.requests[e.r].entry;
    }
  }

  lemma TablesWithinMore(m: Mem, n: Mem, es: set<Entry>, more: set<Entry>)
    requires TablesWithin(m, es) && es <= more && forall k: Kind :: n.Table(k) == m.Table(k)
    ensures TablesWithin(n, more)
  {
  }

  lemma StoreWithin(m: Mem, es: set<Entry>, e: Entry)
    requires TablesWithin(m, es) && e in es
    ensures TablesWithin(Store(m, e), es)
  {
    StoreTable(m, e);
    var n := Store(m, e);
    forall k: Kind, id | id in n.Table(k) ensures Entry(id, k, n.Table(k)[id]) in es {
      if k != e.kind || id != e.id {
        assert id in m.Table(k);
      }
    }
  }

  lemma StepSourced(s: State, max: nat, e: Event)
    requires Logged(s) && Sourced(s)
    ensures Sourced(Step(s, max, e))
  {
    var t := Step(s, max, e);
    SubmittedStep(s, max, e);
    if e.Crash? {
      ReplayWithin(s.log);
    } else if e.StoreEntry? && AtPC(s, e.r, Appended) {
      StoreWithin(s.mem, Submitted(s), s.requests[e.r].entry);
      SetKeyTables(s.mem, s.requests[e.r].entry);
    } else if e.StoreKey? && AtPC(s, e.r, Stored) {
      SetKeyTables(s.mem, s.requests[e.r].entry);
      SetKeyWithin(s.mem, Submitted(s), s.requests[e.r].entry);
      TablesWithinMore(s.mem, t.mem, Submitted(s), Submitted(t));
    } else {
      assert t.mem == s.mem || t.mem == Count(s.mem);
      SetKeyTables(s.mem, Entry(0, Zoom, map[]));
      TablesWithinMore(s.mem, t.mem, Submitted(s), Submitted(t));
      KeysWithinMore(s.mem, Submitted(s), Submitted(t));
    }
  }

  /** A handler that has something to store still has it to store, unless the step stored it. */
  lemma StillAwaits(s: State, max: nat, ev: Event, e: Entry, pcs: set<PC>)
    requires Awaits(s, e, pcs) && !ev.Crash? && (pcs == {Appended} || pcs == {Appended, Stored})
    ensures Awaits(Step(s, max, ev), e, pcs)
            || (ev.StoreEntry? && AtPC(s, ev.r, Appended) && s.requests[ev.r].entry == e && pcs == {Appended})
            || (ev.StoreKey? && AtPC(s, ev.r, Stored) && s.requests[ev.r].entry == e && pcs == {Appended, Stored})
  {
    var t := Step(s, max, ev);
    var r :| r in s.requests && s.requests[r].pc in pcs && s.requests[r].entry == e;
    if r in t.requests && t.requests[r].pc in pcs {
      assert t.requests[r].entry == e;
    }
  }

  lemma StillPresent(s: State, max: nat, ev: Event, e: Entry)
    requires Present(s.mem, e) && !ev.Crash?
    requires ev.StoreEntry? && AtPC(s, ev.r, Appended) ==> !Clash(s.requests[ev.r].entry, e)
    ensures Present(Step(s, max, ev).mem, e)
  {
    if ev.StoreEntry? && AtPC(s, ev.r, Appended) {
      StoreTable(s.mem, s.requests[ev.r].entry);
    } else if ev.StoreKey? && AtPC(s, ev.r, Stored) {
      SetKeyTables(s.mem, s.requests[ev.r].entry);
    } else {
      SetKeyTables(s.mem, e);
    }
  }

  lemma StoredIsPresent(s: State, max: nat, r: nat)
    requires AtPC(s, r, Appended)
    ensures Present(Step(s, max, StoreEntry(r)).mem, s.requests[r].entry)
  {
    StoreTable(s.mem, s.requests[r].entry);
  }

  lemma EntryStep(s: State, max: nat, ev: Event, e: Entry)
    requires Logged(s) && TablesFull(s) && !ev.Crash? && e in Submitted(s)
    requires ev.StoreEntry? && AtPC(s, ev.r, Appended) ==> !Clash(s.requests[ev.r].entry, e)
    ensures Present(Step(s, max, ev).mem, e) || Awaits(Step(s, max, ev), e, {Appended})
  {
    if Present(s.mem, e) {
      StillPresent(s, max, ev, e);
    } else {
      StillAwaits(s, max, ev, e, {Appended});
      if ev.StoreEntry? && AtPC(s, ev.r, Appended) {
        assert ev == StoreEntry(ev.r);
        StoredIsPresent(s, max, ev.r);
      }
    }
  }

  lemma StepTablesFull(s: State, max: nat, ev: Event)
    requires Logged(s) && TablesFull(s) && Compatible(Submitted(Step(s, max, ev))) && !ev.Crash?
    ensures TablesFull(Step(s, max, ev))
  {
    var t := Step(s, max, ev);
    SubmittedStep(s, max, ev);
    forall e | e in Submitted(t) && !Present(t.mem, e) ensures Awaits(t, e, {Appended}) {
      if e in Submitted(s) {
        if ev.StoreEntry? && AtPC(s, ev.r, Appended) {
          assert s.requests[ev.r].entry in Submitted(t);
        }
        EntryStep(s, max, ev, e);
      } else {
        assert t.requests[ev.r].pc == Appended && t.requests[ev.r].entry == e;
      }
    }
  }

  lemma KeyStep(s: State, max: nat, ev: Event, e: Entry)
    requires KeysFull(s) && !ev.Crash? && e in Submitted(s) && e.kind.Generate?
    ensures PlanKey(e.id) in Step(s, max, ev).mem.redisMock || Awaits(Step(s, max, ev), e, {Appended, Stored})
  {
    if PlanKey(e.id) !in s.mem.redisMock {
      StillAwaits(s, max, ev, e, {Appended, Stored});
    }
  }

  lemma CrashKeysFull(s: State, max: nat)
    ensures KeysFull(Step(s, max, Crash))
  {
    SubmittedStep(s, max, Crash);
    ReplayWithin(s.log);
  }

  lemma StepKeysFull(s: State, max: nat, ev: Event)
    requires KeysFull(s)
    ensures KeysFull(Step(s, max, ev))
  {
    if ev.Crash? {
      CrashKeysFull(s, max);
    } else {
      var t := Step(s, max, ev);
      SubmittedStep(s, max, ev);
      forall e | e in Submitted(t) && e.kind.Generate? && PlanKey(e.id) !in t.mem.redisMock
        ensures Awaits(t, e, {Appended, Stored})
      {
        if e in Submitted(s) {
          KeyStep(s, max, ev, e);
        } else {
          assert t.requests[ev.r].pc == Appended && t.requests[ev.r].entry == e;
        }
      }
    }
  }

  /** In every run, with any number of crashes and whatever the ids: memory holds nothing but what was
      submitted, and all its keys; and, unless two submitted entries clash, all its entries, except for what
      handlers are still about to store. */
  lemma {:induction false} RunInvariant(run: seq<Event>, max: nat)
    ensures var s := After(run, max);
            && Logged(s) && Sourced(s) && KeysFull(s)
            && (Compatible(Submitted(s)) ==> TablesFull(s))
  {
    if run != [] {
      var s, e := After(run[..|run| - 1], max), run[|run| - 1];
      RunInvariant(run[..|run| - 1], max);
      StepLogged(s, max, e);
      StepSourced(s, max, e);
      StepKeysFull(s, max, e);
      StepTablesFullIfCompatible(s, max, e);
    }
  }

  lemma CompatibleBefore(s: State, max: nat, e: Event)
    requires !e.Crash? && Compatible(Submitted(Step(s, max, e)))
    ensures Compatible(Submitted(s))
  {
    SubmittedStep(s, max, e);
    assert Submitted(s) <= Submitted(Step(s, max, e));
  }

  lemma CrashTablesFull(s: State, max: nat)
    requires Compatible(Submitted(Step(s, max, Crash)))
    ensures TablesFull(Step(s, max, Crash))
  {
    SubmittedStep(s, max, Crash);
    CrashMemory(s, max);
    ReplayHolds(s.log);
  }

  lemma StepTablesFullIfCompatible(s: State, max: nat, e: Event)
    requires Logged(s) && (Compatible(Submitted(s)) ==> TablesFull(s))
    ensures Compatible(Submitted(Step(s, max, e))) ==> TablesFull(Step(s, max, e))
  {
    if Compatible(Submitted(Step(s, max, e))) {
      if e.Crash? {
        CrashTablesFull(s, max);
      } else {
        CompatibleBefore(s, max, e);
        StepTablesFull(s, max, e);
      }
    }
  }

  // ---- Theorems ----

  lemma SourcedIsVisible(s: State, kind: Kind, id: int)
    requires Sourced(s)
    ensures id in s.mem.Table(kind) ==>
              var e := Entry(id, kind, s.mem.Table(kind)[id]);
              e in s.log || e in s.unlogged
    ensures PlanKey(id) in s.mem.redisMock ==>
              exists e :: (e in s.log || e in s.unlogged) && e.kind.Generate? && e.id == id
  {
    if id in s.mem.Table(kind) {
      assert Entry(id, kind, s.mem.Table(kind)[id]) in Submitted(s);
    }
    if PlanKey(id) in s.mem.redisMock {
      var e :| e in Submitted(s) && e.kind.Generate? && PlanKey(id) == PlanKey(e.id);
      PlanKeyInjective(id, e.id);
    }
  }

  lemma CrashIsLogged(s: State, max: nat, kind: Kind, id: int)
    ensures var t := Step(s, max, Crash).mem.Table(kind); id in t ==> Entry(id, kind, t[id]) in s.log
  {
    CrashMemory(s, max);
    ReplayWithin(s.log);
  }

  lemma CrashMemory(s: State, max: nat)
    ensures Step(s, max, Crash).mem == Replay(s.log) && Step(s, max, Crash).log == s.log
  {
  }

  /** Whatever is visible in a table, or set as a key, has been submitted to the log with the same payload,
      at every step; and after a crash it is in the log. */
  lemma VisibleIsSubmitted(run: seq<Event>, max: nat, kind: Kind, id: int)
    ensures var s := After(run, max);
            && (id in s.mem.Table(kind) ==>
                  var e := Entry(id, kind, s.mem.Table(kind)[id]);
                  e in s.log || e in s.unlogged)
            && ("plan:" + ShowInt(id) in s.mem.redisMock ==>
                  exists e :: (e in s.log || e in s.unlogged) && e.kind.Generate? && e.id == id)
    ensures var t := Step(After(run, max), max, Crash);
            id in t.mem.Table(kind) ==> Entry(id, kind, t.mem.Table(kind)[id]) in After(run, max).log
  {
    RunInvariant(run, max);
    SourcedIsVisible(After(run, max), kind, id);
    CrashIsLogged(After(run, max), max, kind, id);
  }

  /** With no request in progress, and no two submitted entries that clash, tables, keys and counter are the
      replay of everything submitted. */
  lemma QuiescentIsReplay(run: seq<Event>, max: nat)
    requires After(run, max).requests == map[] && Compatible(Submitted(After(run, max)))
    ensures var s := After(run, max);
            && s.mem == Replay(s.log + s.unlogged)
            && (s.mem == Replay(s.log) <==> s.unlogged == [])
  {
    RunInvariant(run, max);
    LogIsAtMostMaxAhead(run, max);
    QuietIsReplay(After(run, max));
  }

  lemma QuietIsReplay(s: State)
    requires Sourced(s) && TablesFull(s) && KeysFull(s) && s.requests == map[] && Compatible(Submitted(s))
    requires s.mem.transactionCount == |s.log| + |s.unlogged|
    ensures s.mem == Replay(s.log + s.unlogged) && (s.mem == Replay(s.log) <==> s.unlogged == [])
  {
    var all := s.log + s.unlogged;
    assert Submitted(s) == Entries(all);
    NothingAwaits(s);
    ReplayHolds(all);
    HoldsIsUnique(s.mem, Replay(all), Entries(all));
    ReplayCount(s.log);
    assert s.unlogged == [] ==> all == s.log;
  }

  lemma NothingAwaits(s: State)
    requires Sourced(s) && TablesFull(s) && KeysFull(s) && s.requests == map[]
    ensures TablesHold(s.mem, Submitted(s)) && KeysHold(s.mem, Submitted(s))
  {
  }

  /** After a crash at any point of any run, whatever crashes came before and whatever the ids: the log is
      untouched, the counter is its length, each place of each table holds what the last line for it says,
      and the keys are exactly those of the generate lines. A request that was acknowledged after a
      successful write is in the log. */
  lemma CrashRecoversExactlyTheLog(run: seq<Event>, max: nat)
    ensures var s := After(run, max);
            var t := Step(s, max, Crash);
            && t.log == s.log && t.mem.transactionCount == |s.log|
            && (forall e :: Present(t.mem, e) <==> LastLine(s.log, e.kind, e.id) == Some(e.payload))
            && TablesWithin(t.mem, Entries(s.log)) && KeysHold(t.mem, Entries(s.log))
            && (Compatible(Entries(s.log)) ==> TablesHold(t.mem, Entries(s.log)))
            && (forall q :: q in s.acknowledged && q.logged ==> q.entry in s.log)
  {
    RunInvariant(run, max);
    CrashMemory(After(run, max), max);
    ReplayIsTheLog(After(run, max).log);
  }

  lemma ReplayIsTheLog(log: seq<Entry>)
    ensures var m := Replay(log);
            && m.transactionCount == |log|
            && (forall e :: Present(m, e) <==> LastLine(log, e.kind, e.id) == Some(e.payload))
            && TablesWithin(m, Entries(log)) && KeysHold(m, Entries(log))
            && (Compatible(Entries(log)) ==> TablesHold(m, Entries(log)))
  {
    ReplayWithin(log);
    forall e ensures Present(Replay(log), e) <==> LastLine(log, e.kind, e.id) == Some(e.payload) {
      ReplayPresent(log, e);
    }
    if Compatible(Entries(log)) {
      ReplayHolds(log);
    }
  }

  // ---- Acknowledgement and recovery ----

  /** One call of appendWAL. */
  datatype Write = Write(entry: Entry, ok: bool)

  /** All calls of appendWAL in a run, over all its crashes. */
  function Writes(run: seq<Event>, max: nat): seq<Write> {
    if run == [] then []
    else
      var s, e := After(run[..|run| - 1], max), run[|run| - 1];
      Writes(run[..|run| - 1], max)
      + (if e.Append? && AtPC(s, e.r, Admitted) then [Write(s.requests[e.r].entry, e.ok)] else [])
  }

  predicate SamePlace(a: Entry, b: Entry) {
    a.kind == b.kind && a.id == b.id
  }

  /** At most one of the writes is for the place of e. */
  predicate Sole(ws: seq<Write>, e: Entry) {
    forall i, j :: 0 <= i < j < |ws| ==> !(SamePlace(ws[i].entry, e) && SamePlace(ws[j].entry, e))
  }

  ghost predicate Covered(s: State, ws: seq<Write>) {
    && (forall e :: e in s.log ==> Write(e, true) in ws)
    && (forall r :: r in s.requests && s.requests[r].pc != Admitted
                    ==> Write(s.requests[r].entry, s.requests[r].logged) in ws)
    && (forall q :: q in s.acknowledged ==> Write(q.entry, q.logged) in ws)
  }

  lemma StepCovered(s: State, max: nat, e: Event, ws: seq<Write>, more: seq<Write>)
    requires Covered(s, ws)
    requires more == ws + (if e.Append? && AtPC(s, e.r, Admitted) then [Write(s.requests[e.r].entry, e.ok)] else [])
    ensures Covered(Step(s, max, e), more)
  {
    assert forall w :: w in ws ==> w in more;
    if e.Append? && AtPC(s, e.r, Admitted) {
      assert more[|ws|] == Write(s.requests[e.r].entry, e.ok);
    }
  }

  lemma {:induction false} WritesCover(run: seq<Event>, max: nat)
    ensures Covered(After(run, max), Writes(run, max))
  {
    if run != [] {
      WritesCover(run[..|run| - 1], max);
      StepCovered(After(run[..|run| - 1], max), max, run[|run| - 1], Writes(run[..|run| - 1], max), Writes(run, max));
    }
  }

  lemma SoleWrite(ws: seq<Write>, e: Entry, a: Write, b: Write)
    requires Sole(ws, e) && a in ws && b in ws && SamePlace(a.entry, e) && SamePlace(b.entry, e)
    ensures a == b
  {
    var i :| 0 <= i < |ws| && ws[i] == a;
    var j :| 0 <= j < |ws| && ws[j] == b;
    assert !(i < j) && !(j < i);
  }

  lemma SoleLine(s: State, ws: seq<Write>, q: Request)
    requires Covered(s, ws) && q in s.acknowledged && Sole(ws, q.entry)
    ensures forall x :: x in s.log ==> !Clash(q.entry, x)
    ensures q.entry in s.log ==> q.logged
  {
    assert Write(q.entry, q.logged) in ws;
    forall x | x in s.log && SamePlace(q.entry, x) ensures x == q.entry && q.logged {
      SoleWrite(ws, q.entry, Write(x, true), Write(q.entry, q.logged));
    }
  }

  lemma PresentIffWritten(s: State, ws: seq<Write>, q: Request)
    requires Logged(s) && Covered(s, ws) && q in s.acknowledged && Sole(ws, q.entry)
    ensures q.logged <==> Present(Replay(s.log), q.entry)
  {
    SoleLine(s, ws, q);
    ReplayPresent(s.log, q.entry);
  }

  /** An acknowledged request whose place no other request of the run wrote to is there after a crash, with
      its payload, if and only if its write succeeded. */
  lemma AcknowledgedIffWritten(run: seq<Event>, max: nat, q: Request)
    requires q in After(run, max).acknowledged && Sole(Writes(run, max), q.entry)
    ensures q.logged <==> Present(Step(After(run, max), max, Crash).mem, q.entry)
  {
    RunInvariant(run, max);
    WritesCover(run, max);
    PresentIffWritten(After(run, max), Writes(run, max), q);
    CrashMemory(After(run, max), max);
  }

  /** The same for all of them at once, as a restart finds them. */
  ghost predicate RecoveredIffWritten(s: State, ws: seq<Write>, m: Mem) {
    forall q :: q in s.acknowledged && Sole(ws, q.entry) ==> (q.logged <==> Present(m, q.entry))
  }

  lemma EachPresentIffWritten(s: State, ws: seq<Write>)
    requires Logged(s) && Covered(s, ws)
    ensures RecoveredIffWritten(s, ws, Replay(s.log))
  {
    forall q | q in s.acknowledged && Sole(ws, q.entry) ensures q.logged <==> Present(Replay(s.log), q.entry) {
      PresentIffWritten(s, ws, q);
    }
  }

  lemma EachAcknowledgedIffWritten(run: seq<Event>, max: nat)
    ensures RecoveredIffWritten(After(run, max), Writes(run, max), Replay(After(run, max).log))
  {
    RunInvariant(run, max);
    WritesCover(run, max);
    EachPresentIffWritten(After(run, max), Writes(run, max));
  }

  /** No write of the run fails. */
  predicate NoFailure(run: seq<Event>) {
    forall i :: 0 <= i < |run| && run[i].Append? ==> run[i].ok
  }

  ghost predicate AllWritten(s: State) {
    && s.unlogged == []
    && (forall r :: r in s.requests && s.requests[r].pc != Admitted ==> s.requests[r].logged)
    && (forall q :: q in s.acknowledged ==> q.logged)
  }

  lemma {:induction false} NoFailureAllWritten(run: seq<Event>, max: nat)
    requires NoFailure(run)
    ensures AllWritten(After(run, max))
  {
    if run != [] {
      NoFailureAllWritten(run[..|run| - 1], max);
    }
  }

  /** If no write ever fails, an acknowledged request survives a crash at any point exactly if the last line
      for its place agrees with it; so all survive if no two lines of the log clash, and then, with no request
      in progress, the crash changes nothing in memory. */
  lemma AcknowledgedSurvives(run: seq<Event>, max: nat)
    requires NoFailure(run)
    ensures var s := After(run, max);
            var t := Step(s, max, Crash);
            && (forall q :: q in s.acknowledged ==>
                  && q.entry in s.log
                  && (Present(t.mem, q.entry) <==> LastLine(s.log, q.entry.kind, q.entry.id) == Some(q.entry.payload)))
            && (Compatible(Entries(s.log)) ==>
                  && (forall q :: q in s.acknowledged ==> Present(t.mem, q.entry))
                  && (s.requests == map[] ==> s.mem == t.mem))
  {
    RunInvariant(run, max);
    NoFailureAllWritten(run, max);
    CrashMemory(After(run, max), max);
    WrittenSurvive(After(run, max));
    if Compatible(Entries(After(run, max).log)) && After(run, max).requests == map[] {
      SubmittedIsLog(After(run, max));
      QuiescentIsReplay(run, max);
    }
  }

  lemma SubmittedIsLog(s: State)
    requires s.unlogged == []
    ensures Submitted(s) == Entries(s.log)
  {
  }

  lemma WrittenSurvive(s: State)
    requires Logged(s) && AllWritten(s)
    ensures forall q :: q in s.acknowledged ==>
                          && q.entry in s.log
                          && (Present(Replay(s.log), q.entry)
                              <==> LastLine(s.log, q.entry.kind, q.entry.id) == Some(q.entry.payload))
    ensures Compatible(Entries(s.log)) ==> forall q :: q in s.acknowledged ==> Present(Replay(s.log), q.entry)
  {
    ReplayIsTheLog(s.log);
  }

  lemma UnwrittenIsLost(s: State, e: Entry) returns (t: State)
    requires s == INITIAL.(requests := map[0 := Request(e, Admitted, false)], concurrentRequests := 1)
    ensures t == Exec(s, 1, Script(0, false))
    ensures |t.acknowledged| == 1 && t.acknowledged[0].entry == e && t.log == []
  {
    t := ScriptIsApply(s, 1, 0, false);
  }

  /** A request whose write fails is answered all the same, and is not there after a crash. */
  lemma AcknowledgedCanBeLost(e: Entry) returns (run: seq<Event>)
    ensures var s := After(run, 1);
            && |s.acknowledged| == 1 && s.acknowledged[0].entry == e
            && !Present(Step(s, 1, Crash).mem, e)
  {
    var s := INITIAL.(requests := map[0 := Request(e, Admitted, false)], concurrentRequests := 1);
    var t := UnwrittenIsLost(s, e);
    run := [Admit(0, e)] + Script(0, false);
    assert Step(INITIAL, 1, Admit(0, e)) == s && [] + run == run;
    ExecCons(INITIAL, 1, Admit(0, e), Script(0, false));
    ExecIsAfter([], 1, run);
    CrashMemory(t, 1);
    ReplayPresent([], e);
  }

  /** Nothing is in the log that a handler did not write there: line i was written by a successful
      append, for the request being served, when the log was i lines long; and lines never go away. */
  lemma {:induction false} LogHasSource(run: seq<Event>, max: nat, i: nat) returns (k: nat)
    requires i < |After(run, max).log|
    ensures k < |run| && run[k].Append? && run[k].ok
    ensures var s := After(run[..k], max);
            && AtPC(s, run[k].r, Admitted) && s.requests[run[k].r].entry == After(run, max).log[i]
            && s.log == After(run, max).log[..i]
  {
    var n := |run| - 1;
    var s := After(run[..n], max);
    LogStep(s, max, run[n]);
    if i < |s.log| {
      k := LogHasSource(run[..n], max, i);
      assert run[..n][..k] == run[..k];
    } else {
      k := n;
    }
  }
}
