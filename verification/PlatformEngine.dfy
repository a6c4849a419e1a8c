/** The platform engine's global variables, the handlers in progress, and the statements by which they
    advance. Each method is one access to shared state, or a whole request served without interruption. */
module PlatformEngineState {
  import opened Decimal
  import opened WriteAheadLog
  import opened EngineRuns
  import opened Recovery

  const MAX_CONCURRENT: nat := 500

  lemma Extend(run: seq<Event>, max: nat, e: Event)
    ensures After(run + [e], max) == Step(After(run, max), max, e)
  {
    assert (run + [e])[..|run|] == run;
  }

  lemma LinesMore(log: seq<Entry>, e: Entry)
    ensures Lines(log + [e]) == Lines(log) + [Written(e)]
  {
  }

  class PlatformEngine {
    var walFile: seq<Line>         // state_wal.log
    var studyPlans: map<int, Payload>
    var zoomSessions: map<int, Payload>
    var searchLogs: map<int, Payload>
    var redisMock: map<string, string>
    var transactionCount: nat
    var concurrentRequests: nat
    var requests: map<nat, Request>   // where each handler stands
    var others: nat                   // logins and registrations in progress
    ghost var run: seq<Event>         // everything that has happened

    ghost function Memory(): Mem
      reads this
    {
      Mem(studyPlans, zoomSessions, searchLogs, redisMock, transactionCount)
    }

    ghost function Now(): State
      reads this
    {
      After(run, MAX_CONCURRENT)
    }

    /** The engine is what the run so far makes of it. */
    ghost predicate Valid()
      reads this
    {
      && walFile == Lines(Now().log) && Memory() == Now().mem && requests == Now().requests
      && others == Now().others && concurrentRequests == Now().concurrentRequests
    }

    /** A first start, without a log on disk. */
    constructor ()
      ensures Valid() && run == []
    {
      walFile, run := [], [];
      studyPlans, zoomSessions, searchLogs, redisMock := map[], map[], map[], map[];
      requests := map[];
      transactionCount, concurrentRequests, others := 0, 0, 0;
    }

    /** Recovery reads whatever file there is from the top and leaves it as it is. */
    method InitWAL()
      requires Memory() == EMPTY
      modifies this`studyPlans, this`zoomSessions, this`searchLogs, this`redisMock, this`transactionCount
      ensures Memory() == Replay(Readable(walFile)).(transactionCount := Ungarbled(walFile))
      ensures TableReads(walFile, Generate, studyPlans) && TableReads(walFile, Zoom, zoomSessions)
      ensures TableReads(walFile, Search, searchLogs) && KeysRead(walFile, redisMock)
      ensures transactionCount == |Parsed(walFile)|
    {
      for i := 0 to |walFile|
        invariant Memory() == ReplayLines(walFile[..i])
      {
        assert walFile[..i + 1][..i] == walFile[..i];
        match walFile[i] {
          case Garbled =>
          case OtherType =>
            transactionCount := transactionCount + 1;
          case Written(entry) =>
            match entry.kind {
              case Generate =>
                studyPlans := studyPlans[entry.id := entry.payload];
                redisMock := redisMock[PlanKey(entry.id) := "processing"];
              case Zoom =>
                zoomSessions := zoomSessions[entry.id := entry.payload];
              case Search =>
                searchLogs := searchLogs[entry.id := entry.payload];
            }
            transactionCount := transactionCount + 1;
        }
      }
      assert walFile[..|walFile|] == walFile;
      ReplayLinesIsReplay(walFile);
      RecoveryReadsFile(walFile);
    }

    /** A new process over the lines the engine has written. */
    method Restart(ghost log: seq<Entry>)
      requires walFile == Lines(log)
      modifies this`studyPlans, this`zoomSessions, this`searchLogs, this`redisMock, this`transactionCount,
               this`requests, this`others, this`concurrentRequests
      ensures Memory() == Replay(log) && requests == map[] && others == 0 && concurrentRequests == 0
      ensures TableReads(walFile, Generate, studyPlans) && TableReads(walFile, Zoom, zoomSessions)
      ensures TableReads(walFile, Search, searchLogs) && KeysRead(walFile, redisMock)
    {
      studyPlans, zoomSessions, searchLogs, redisMock := map[], map[], map[], map[];
      requests := map[];
      transactionCount, concurrentRequests, others := 0, 0, 0;
      InitWAL();
      ReplayLinesIsReplay(walFile);
      ReplayOwnLines(log);
    }

    /** The process dies at whatever point its handlers are, and a new one starts over the log: it holds
        nothing that is not in the log, and an acknowledged request whose place no other request wrote to
        exactly if its write succeeded. */
    method CrashAndRestart()
      requires Valid()
      modifies this
      ensures Valid() && run == old(run) + [Crash] && walFile == old(walFile) && requests == map[]
      ensures Memory() == Replay(old(Now().log)) && TablesWithin(Memory(), Entries(old(Now().log)))
      ensures RecoveredIffWritten(old(Now()), Writes(old(run), MAX_CONCURRENT), Memory())
      ensures TableReads(walFile, Generate, studyPlans) && TableReads(walFile, Zoom, zoomSessions)
      ensures TableReads(walFile, Search, searchLogs) && KeysRead(walFile, redisMock)
    {
      ReplayWithin(Now().log);
      EachAcknowledgedIffWritten(run, MAX_CONCURRENT);
      Extend(run, MAX_CONCURRENT, Crash);
      Restart(Now().log);
      run := run + [Crash];
    }

    // ---- The breaker ----

    /** A request for one of the three handlers meets the circuit breaker. */
    method Enter(r: nat, entry: Entry) returns (admitted: bool)
      requires Valid() && r !in requests
      modifies this`concurrentRequests, this`requests, this`run
      ensures Valid() && run == old(run) + [Admit(r, entry)]
      ensures admitted <==> old(|requests| + others) < 500
      ensures requests == if admitted then old(requests)[r := Request(entry, Admitted, false)] else old(requests)
    {
      Extend(run, MAX_CONCURRENT, Admit(r, entry));
      BreakerCounts(run, MAX_CONCURRENT);
      run := run + [Admit(r, entry)];
      if concurrentRequests >= MAX_CONCURRENT {
        return false;
      }
      concurrentRequests := concurrentRequests + 1;
      requests := requests[r := Request(entry, Admitted, false)];
      return true;
    }

    /** The deferred release of an answered request; the counter cannot be zero then. */
    method Leave(r: nat)
      requires Valid() && r in requests && requests[r].pc == Answered
      modifies this`concurrentRequests, this`requests, this`run
      ensures Valid() && run == old(run) + [Release(r)]
      ensures old(concurrentRequests) > 0 && concurrentRequests == old(concurrentRequests) - 1
      ensures requests == old(requests) - {r}
    {
      Extend(run, MAX_CONCURRENT, Release(r));
      BreakerCounts(run, MAX_CONCURRENT);
      assert |requests.Keys| == |requests| && r in requests.Keys;
      run := run + [Release(r)];
      concurrentRequests := concurrentRequests - 1;
      requests := requests - {r};
    }

    /** The same for a login or a registration. */
    method EnterOther() returns (admitted: bool)
      requires Valid()
      modifies this`concurrentRequests, this`others, this`run
      ensures Valid() && run == old(run) + [Event.EnterOther]
      ensures admitted <==> old(|requests| + others) < 500
      ensures others == old(others) + if admitted then 1 else 0
    {
      Extend(run, MAX_CONCURRENT, Event.EnterOther);
      BreakerCounts(run, MAX_CONCURRENT);
      run := run + [Event.EnterOther];
      if concurrentRequests >= MAX_CONCURRENT {
        return false;
      }
      concurrentRequests := concurrentRequests + 1;
      others := others + 1;
      return true;
    }

    method LeaveOther()
      requires Valid() && others > 0
      modifies this`concurrentRequests, this`others, this`run
      ensures Valid() && run == old(run) + [Event.LeaveOther]
      ensures old(concurrentRequests) > 0 && concurrentRequests == old(concurrentRequests) - 1
      ensures others == old(others) - 1
    {
      Extend(run, MAX_CONCURRENT, Event.LeaveOther);
      BreakerCounts(run, MAX_CONCURRENT);
      run := run + [Event.LeaveOther];
      concurrentRequests := concurrentRequests - 1;
      others := others - 1;
    }

    // ---- The statements of a handler ----

    method AppendWAL(r: nat, writeOk: bool)
      requires Valid() && r in requests && requests[r].pc == Admitted
      modifies this`walFile, this`requests, this`run
      ensures Valid() && run == old(run) + [Append(r, writeOk)]
      ensures walFile == if writeOk then old(walFile) + [Written(old(requests)[r].entry)] else old(walFile)
      ensures requests == old(requests)[r := Request(old(requests)[r].entry, Appended, writeOk)]
    {
      Extend(run, MAX_CONCURRENT, Append(r, writeOk));
      LinesMore(Now().log, requests[r].entry);
      run := run + [Append(r, writeOk)];
      var entry := requests[r].entry;
      requests := requests[r := Request(entry, Appended, writeOk)];
      if !writeOk {
        return;   // the failure is only printed
      }
      walFile := walFile + [Written(entry)];
    }

    /** The entry goes into the table of its kind. */
    method StoreEntry(r: nat)
      requires Valid() && r in requests && requests[r].pc == Appended
      modifies this`studyPlans, this`zoomSessions, this`searchLogs, this`requests, this`run
      ensures Valid() && run == old(run) + [Event.StoreEntry(r)]
      ensures requests == old(requests)[r := old(requests)[r].(pc := Stored)]
      ensures Memory() == Store(old(Memory()), old(requests)[r].entry)
      ensures var e := old(requests)[r].entry;
              && studyPlans == (if e.kind == Generate then old(studyPlans)[e.id := e.payload] else old(studyPlans))
              && zoomSessions == (if e.kind == Zoom then old(zoomSessions)[e.id := e.payload] else old(zoomSessions))
              && searchLogs == if e.kind == Search then old(searchLogs)[e.id := e.payload] else old(searchLogs)
    {
      Extend(run, MAX_CONCURRENT, Event.StoreEntry(r));
      run := run + [Event.StoreEntry(r)];
      var entry := requests[r].entry;
      requests := requests[r := requests[r].(pc := Stored)];
      match entry.kind {
        case Generate => studyPlans := studyPlans[entry.id := entry.payload];
        case Zoom => zoomSessions := zoomSessions[entry.id := entry.payload];
        case Search => searchLogs := searchLogs[entry.id := entry.payload];
      }
    }

    /** A study plan also gets its key. */
    method StoreKey(r: nat)
      requires Valid() && r in requests && requests[r].pc == Stored
      modifies this`redisMock, this`requests, this`run
      ensures Valid() && run == old(run) + [Event.StoreKey(r)]
      ensures requests == old(requests)[r := old(requests)[r].(pc := Keyed)]
      ensures Memory() == SetKey(old(Memory()), old(requests)[r].entry)
      ensures var e := old(requests)[r].entry;
              redisMock == if e.kind != Generate then old(redisMock)
                           else old(redisMock)["plan:" + ShowInt(e.id) := "processing"]
    {
      Extend(run, MAX_CONCURRENT, Event.StoreKey(r));
      run := run + [Event.StoreKey(r)];
      var entry := requests[r].entry;
      requests := requests[r := requests[r].(pc := Keyed)];
      if entry.kind == Generate {
        redisMock := redisMock[PlanKey(entry.id) := "processing"];
      }
    }

    method CountOne(r: nat)
      requires Valid() && r in requests && requests[r].pc == Keyed
      modifies this`transactionCount, this`requests, this`run
      ensures Valid() && run == old(run) + [Event.CountOne(r)]
      ensures requests == old(requests)[r := old(requests)[r].(pc := Counted)]
      ensures Memory() == Count(old(Memory())) && transactionCount == old(transactionCount) + 1
    {
      Extend(run, MAX_CONCURRENT, Event.CountOne(r));
      run := run + [Event.CountOne(r)];
      requests := requests[r := requests[r].(pc := Counted)];
      transactionCount := transactionCount + 1;
    }

    method Answer(r: nat)
      requires Valid() && r in requests && requests[r].pc == Counted
      modifies this`requests, this`run
      ensures Valid() && run == old(run) + [Event.Answer(r)]
      ensures requests == old(requests)[r := old(requests)[r].(pc := Answered)]
      ensures Now().acknowledged == old(Now().acknowledged) + [old(requests)[r]]
    {
      Extend(run, MAX_CONCURRENT, Event.Answer(r));
      run := run + [Event.Answer(r)];
      requests := requests[r := requests[r].(pc := Answered)];
    }

    // ---- Whole requests ----

    /** What a handler leaves behind: its line, its entry and its key. */
    method Record(r: nat, writeOk: bool)
      requires Valid() && r in requests && requests[r].pc == Admitted
      modifies this
      ensures Valid() && others == old(others)
      ensures requests == old(requests)[r := Request(old(requests)[r].entry, Keyed, writeOk)]
      ensures Memory() == SetKey(Store(old(Memory()), old(requests)[r].entry), old(requests)[r].entry)
      ensures walFile == if writeOk then old(walFile) + [Written(old(requests)[r].entry)] else old(walFile)
    {
      AppendWAL(r, writeOk);
      StoreEntry(r);
      StoreKey(r);
    }

    method Conclude(r: nat)
      requires Valid() && r in requests && requests[r].pc == Keyed
      modifies this
      ensures Valid() && others == old(others) && requests == old(requests) - {r} && walFile == old(walFile)
      ensures Memory() == Count(old(Memory()))
    {
      CountOne(r);
      Answer(r);
      Leave(r);
    }

    /** handleGenerate, handleZoom and handleSearch behind the breaker, by the kind of their entry. If admitted,
        the request changes memory as replay of its entry would, whether or not its line was written. */
    method Handle(r: nat, entry: Entry, writeOk: bool) returns (admitted: bool)
      requires Valid() && r !in requests
      modifies this
      ensures Valid() && requests == old(requests) && others == old(others)
      ensures admitted <==> old(|requests| + others) < 500
      ensures Memory() == if admitted then Apply(old(Memory()), entry) else old(Memory())
      ensures studyPlans == if admitted && entry.kind == Generate then old(studyPlans)[entry.id := entry.payload]
                            else old(studyPlans)
      ensures zoomSessions == if admitted && entry.kind == Zoom then old(zoomSessions)[entry.id := entry.payload]
                              else old(zoomSessions)
      ensures searchLogs == if admitted && entry.kind == Search then old(searchLogs)[entry.id := entry.payload]
                            else old(searchLogs)
      ensures redisMock == if admitted && entry.kind == Generate
                           then old(redisMock)["plan:" + ShowInt(entry.id) := "processing"] else old(redisMock)
      ensures transactionCount == old(transactionCount) + if admitted then 1 else 0
      ensures walFile == if admitted && writeOk then old(walFile) + [Written(entry)] else old(walFile)
    {
      admitted := Enter(r, entry);
      if !admitted {
        return;
      }
      Record(r, writeOk);
      Conclude(r);
      ApplyFields(old(Memory()), entry, Memory());
      assert requests == old(requests);
    }

    /** handleStateHash: the count is never more than the breaker's limit behind the log, and with no request in
        progress, and no write failed since the start, it is the number of lines. */
    method HandleStateHash() returns (count: nat)
      requires Valid()
      ensures |walFile| <= count + 500
      ensures requests == map[] && Now().unlogged == [] ==> count == |walFile|
    {
      LogIsAtMostMaxAhead(run, MAX_CONCURRENT);
      return transactionCount;
    }
  }
}
