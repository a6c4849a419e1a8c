/** The write-ahead log of the platform engine: what one entry does to the in-memory state, and replay. */
module WriteAheadLog {
  import opened Decimal
  import opened Options

  type Payload = map<string, string>

  datatype Kind = Generate | Zoom | Search

  datatype Entry = Entry(id: int, kind: Kind, payload: Payload)

  datatype Mem = Mem(
    studyPlans: map<int, Payload>,
    zoomSessions: map<int, Payload>,
    searchLogs: map<int, Payload>,
    redisMock: map<string, string>,
    transactionCount: nat)
  {
    function Table(kind: Kind): map<int, Payload> {
      match kind
      case Generate => studyPlans
      case Zoom => zoomSessions
      case Search => searchLogs
    }
  }

  const EMPTY := Mem(map[], map[], map[], map[], 0)

  function PlanKey(id: int): string {
    "plan:" + ShowInt(id)
  }

  lemma PlanKeyInjective(a: int, b: int)
    requires PlanKey(a) == PlanKey(b)
    ensures a == b
  {
    assert PlanKey(a)[5..] == ShowInt(a) && PlanKey(b)[5..] == ShowInt(b);
    ShowIntInjective(a, b);
  }

  function Store(m: Mem, e: Entry): Mem {
    match e.kind
    case Generate => m.(studyPlans := m.studyPlans[e.id := e.payload])
    case Zoom => m.(zoomSessions := m.zoomSessions[e.id := e.payload])
    case Search => m.(searchLogs := m.searchLogs[e.id := e.payload])
  }

  function SetKey(m: Mem, e: Entry): Mem {
    if e.kind.Generate? then m.(redisMock := m.redisMock[PlanKey(e.id) := "processing"]) else m
  }

  function Count(m: Mem): Mem {
    m.(transactionCount := m.transactionCount + 1)
  }

  function Apply(m: Mem, e: Entry): Mem {
    Count(SetKey(Store(m, e), e))
  }

  function Replay(log: seq<Entry>): Mem {
    if log == [] then EMPTY else Apply(Replay(log[..|log| - 1]), log[|log| - 1])
  }

  function Entries(es: seq<Entry>): set<Entry> {
    set e | e in es
  }

  lemma EntriesAppend(es: seq<Entry>, e: Entry)
    ensures Entries(es + [e]) == Entries(es) + {e}
  {
  }

  // ---- What the memory says about a set of entries ----

  /** The entry is in its table, with its payload. */
  predicate Present(m: Mem, e: Entry) {
    e.id in m.Table(e.kind) && m.Table(e.kind)[e.id] == e.payload
  }

  /** The tables hold nothing but entries of `es`. */
  ghost predicate TablesWithin(m: Mem, es: set<Entry>) {
    forall k: Kind, id :: id in m.Table(k) ==> Entry(id, k, m.Table(k)[id]) in es
  }

  /** The three tables hold exactly the entries of `es`. */
  ghost predicate TablesHold(m: Mem, es: set<Entry>) {
    TablesWithin(m, es) && forall e :: e in es ==> Present(m, e)
  }

  ghost predicate KeyOf(es: set<Entry>, key: string) {
    exists e :: e in es && e.kind.Generate? && key == "plan:" + ShowInt(e.id)
  }

  /** The keys are all `plan:<id>` keys of generate entries of `es`. */
  ghost predicate KeysWithin(m: Mem, es: set<Entry>) {
    forall key :: key in m.redisMock ==> m.redisMock[key] == "processing" && KeyOf(es, key)
  }

  /** The keys are exactly those of the generate entries of `es`. */
  ghost predicate KeysHold(m: Mem, es: set<Entry>) {
    KeysWithin(m, es) && forall e :: e in es && e.kind.Generate? ==> PlanKey(e.id) in m.redisMock
  }

  /** Two entries for the same place of the same table that do not agree on what belongs there. */
  predicate Clash(a: Entry, b: Entry) {
    a.kind == b.kind && a.id == b.id && a.payload != b.payload
  }

  predicate Compatible(es: set<Entry>) {
    forall a, b :: a in es && b in es ==> !Clash(a, b)
  }

  lemma StoreTable(m: Mem, e: Entry)
    ensures forall k: Kind :: Store(m, e).Table(k) == if k == e.kind then m.Table(k)[e.id := e.payload] else m.Table(k)
  {
  }

  lemma SetKeyTables(m: Mem, e: Entry)
    ensures forall k: Kind :: SetKey(m, e).Table(k) == m.Table(k) == Count(m).Table(k)
    ensures Store(m, e).redisMock == m.redisMock
  {
  }

  lemma ApplyTable(m: Mem, e: Entry, k: Kind)
    ensures Apply(m, e).Table(k) == if k == e.kind then m.Table(k)[e.id := e.payload] else m.Table(k)
  {
    StoreTable(m, e);
    SetKeyTables(Store(m, e), e);
    SetKeyTables(SetKey(Store(m, e), e), e);
  }

  /** What an entry changes, field by field. */
  lemma ApplyFields(m: Mem, e: Entry, n: Mem)
    requires n == Apply(m, e)
    ensures n.studyPlans == if e.kind == Generate then m.studyPlans[e.id := e.payload] else m.studyPlans
    ensures n.zoomSessions == if e.kind == Zoom then m.zoomSessions[e.id := e.payload] else m.zoomSessions
    ensures n.searchLogs == if e.kind == Search then m.searchLogs[e.id := e.payload] else m.searchLogs
    ensures n.redisMock
            == if e.kind == Generate then m.redisMock["plan:" + ShowInt(e.id) := "processing"] else m.redisMock
    ensures n.transactionCount == m.transactionCount + 1
  {
  }

  lemma KeyOfMore(es: set<Entry>, more: set<Entry>, key: string)
    requires KeyOf(es, key) && es <= more
    ensures KeyOf(more, key)
  {
    var e :| e in es && e.kind.Generate? && key == PlanKey(e.id);
    assert e in more;
  }

  lemma SetKeyWithin(m: Mem, es: set<Entry>, e: Entry)
    requires KeysWithin(m, es) && e in es
    ensures KeysWithin(SetKey(m, e), es)
  {
  }

  lemma KeysWithinMore(m: Mem, es: set<Entry>, more: set<Entry>)
    requires KeysWithin(m, es) && es <= more
    ensures KeysWithin(m, more)
  {
    forall key | key in m.redisMock ensures KeyOf(more, key) {
      KeyOfMore(es, more, key);
    }
  }

  // ---- Replay ----

  /** What the last line for a place of a table says belongs there. */
  function LastLine(log: seq<Entry>, kind: Kind, id: int): Option<Payload> {
    if log == [] then None
    else
      var e := log[|log| - 1];
      if e.kind == kind && e.id == id then Some(e.payload) else LastLine(log[..|log| - 1], kind, id)
  }

  predicate IsFor(e: Entry, kind: Kind, id: int) {
    e.kind == kind && e.id == id
  }

  /** Line i is for the place and no later line is. */
  ghost predicate IsLastFor(log: seq<Entry>, kind: Kind, id: int, i: nat)
    requires i < |log|
  {
    IsFor(log[i], kind, id) && forall j :: i < j < |log| ==> !IsFor(log[j], kind, id)
  }

  lemma {:induction false} LastLineIsLast(log: seq<Entry>, kind: Kind, id: int) returns (i: nat)
    ensures match LastLine(log, kind, id)
            case Some(p) => i < |log| && IsLastFor(log, kind, id, i) && log[i].payload == p
            case None => forall e :: e in log ==> !IsFor(e, kind, id)
  {
    i := 0;
    if log != [] {
      var n := |log| - 1;
      if IsFor(log[n], kind, id) {
        i := n;
      } else {
        i := LastLineIsLast(log[..n], kind, id);
      }
    }
  }

  lemma LastLineIsLine(log: seq<Entry>, kind: Kind, id: int)
    ensures match LastLine(log, kind, id)
            case Some(p) => Entry(id, kind, p) in log
            case None => forall e :: e in log ==> e.kind != kind || e.id != id
  {
    var i := LastLineIsLast(log, kind, id);
    if LastLine(log, kind, id).Some? {
      assert log[i] == Entry(id, kind, log[i].payload);
    } else {
      assert forall e :: e in log ==> !IsFor(e, kind, id);
    }
  }

  /** Whatever the ids, replay puts into each place what the last line for it says. */
  lemma {:induction false} ReplayIsLastLine(log: seq<Entry>, kind: Kind, id: int)
    ensures var t := Replay(log).Table(kind);
            LastLine(log, kind, id) == if id in t then Some(t[id]) else None
  {
    if log != [] {
      var n := |log| - 1;
      ReplayIsLastLine(log[..n], kind, id);
      ApplyTable(Replay(log[..n]), log[n], kind);
    }
  }

  lemma EntriesLast(es: seq<Entry>)
    requires es != []
    ensures Entries(es) == Entries(es[..|es| - 1]) + {es[|es| - 1]}
  {
  }

  lemma {:induction false} ReplayKeys(log: seq<Entry>)
    ensures KeysHold(Replay(log), Entries(log))
  {
    if log != [] {
      var n, e := |log| - 1, log[|log| - 1];
      ReplayKeys(log[..n]);
      EntriesLast(log);
      var stored := Store(Replay(log[..n]), e);
      KeysWithinMore(stored, Entries(log[..n]), Entries(log));
      SetKeyWithin(stored, Entries(log), e);
    }
  }

  lemma {:induction false} ReplayCount(log: seq<Entry>)
    ensures Replay(log).transactionCount == |log|
  {
    if log != [] {
      ReplayCount(log[..|log| - 1]);
    }
  }

  /** Replay of any log holds nothing but its lines, exactly their keys, and their number. */
  lemma ReplayWithin(log: seq<Entry>)
    ensures TablesWithin(Replay(log), Entries(log)) && KeysHold(Replay(log), Entries(log))
    ensures Replay(log).transactionCount == |log|
  {
    forall k: Kind, id | id in Replay(log).Table(k) ensures Entry(id, k, Replay(log).Table(k)[id]) in Entries(log) {
      ReplayIsLastLine(log, k, id);
      LastLineIsLine(log, k, id);
    }
    ReplayKeys(log);
    ReplayCount(log);
  }

  /** An entry of the log is in its table after replay if it clashes with no line, and only if it is the last. */
  lemma ReplayPresent(log: seq<Entry>, e: Entry)
    ensures Present(Replay(log), e) <==> LastLine(log, e.kind, e.id) == Some(e.payload)
    ensures e in log && (forall x :: x in log ==> !Clash(e, x)) ==> Present(Replay(log), e)
    ensures Present(Replay(log), e) ==> e in log
  {
    ReplayIsLastLine(log, e.kind, e.id);
    LastLineIsLine(log, e.kind, e.id);
    var last := LastLine(log, e.kind, e.id);
    if e in log && last.Some? && last.value != e.payload {
      assert Clash(e, Entry(e.id, e.kind, last.value));
    }
  }

  /** Without clashes replay holds exactly the log: its tables, its keys, its count. */
  lemma ReplayHolds(log: seq<Entry>)
    requires Compatible(Entries(log))
    ensures TablesHold(Replay(log), Entries(log)) && KeysHold(Replay(log), Entries(log))
    ensures Replay(log).transactionCount == |log|
  {
    ReplayWithin(log);
    forall e | e in Entries(log) ensures Present(Replay(log), e) {
      assert forall x :: x in log ==> x in Entries(log);
      ReplayPresent(log, e);
    }
  }

  // ---- Uniqueness ----

  ghost predicate Within<K(!new), V>(a: map<K, V>, b: map<K, V>) {
    forall k :: k in a ==> k in b && b[k] == a[k]
  }

  lemma SameMap<K(!new), V>(a: map<K, V>, b: map<K, V>)
    requires Within(a, b) && Within(b, a)
    ensures a == b
  {
    assert a.Keys == b.Keys;
  }

  lemma TableIsWithin(m: Mem, n: Mem, es: set<Entry>, k: Kind)
    requires TablesHold(m, es) && TablesHold(n, es)
    ensures Within(m.Table(k), n.Table(k))
  {
    forall id | id in m.Table(k) ensures id in n.Table(k) && n.Table(k)[id] == m.Table(k)[id] {
      assert Present(n, Entry(id, k, m.Table(k)[id]));
    }
  }

  lemma TableIsUnique(m: Mem, n: Mem, es: set<Entry>, k: Kind)
    requires TablesHold(m, es) && TablesHold(n, es)
    ensures m.Table(k) == n.Table(k)
  {
    TableIsWithin(m, n, es, k);
    TableIsWithin(n, m, es, k);
    SameMap(m.Table(k), n.Table(k));
  }

  lemma KeysAreWithin(m: Mem, n: Mem, es: set<Entry>)
    requires KeysHold(m, es) && KeysHold(n, es)
    ensures Within(m.redisMock, n.redisMock)
  {
    forall key | key in m.redisMock ensures key in n.redisMock && n.redisMock[key] == m.redisMock[key] {
      assert KeyOf(es, key);
    }
  }

  /** A memory that holds the same entries is the same memory. */
  lemma HoldsIsUnique(m: Mem, n: Mem, es: set<Entry>)
    requires TablesHold(m, es) && KeysHold(m, es) && TablesHold(n, es) && KeysHold(n, es)
    requires m.transactionCount == n.transactionCount
    ensures m == n
  {
    TableIsUnique(m, n, es, Generate);
    TableIsUnique(m, n, es, Zoom);
    TableIsUnique(m, n, es, Search);
    KeysAreWithin(m, n, es);
    KeysAreWithin(n, m, es);
    SameMap(m.redisMock, n.redisMock);
  }

  // ---- The lines of the file ----

  /** A line is an entry of one of the three types, an entry of some other type, or no entry at all. */
  datatype Line = Written(entry: Entry) | OtherType | Garbled

  function ReplayLine(m: Mem, line: Line): Mem {
    match line
    case Written(e) => Apply(m, e)
    case OtherType => Count(m)
    case Garbled => m
  }

  function ReplayLines(lines: seq<Line>): Mem {
    if lines == [] then EMPTY else ReplayLine(ReplayLines(lines[..|lines| - 1]), lines[|lines| - 1])
  }

  /** The entries of the three types. */
  function Readable(lines: seq<Line>): seq<Entry> {
    if lines == [] then []
    else Readable(lines[..|lines| - 1]) + (match lines[|lines| - 1] case Written(e) => [e] case _ => [])
  }

  function Ungarbled(lines: seq<Line>): nat {
    if lines == [] then 0 else Ungarbled(lines[..|lines| - 1]) + if lines[|lines| - 1] == Garbled then 0 else 1
  }

  lemma ApplyToCount(m: Mem, e: Entry, n: nat)
    ensures Apply(m.(transactionCount := n), e) == Apply(m, e).(transactionCount := n + 1)
  {
    match e.kind {
      case Generate =>
      case Zoom =>
      case Search =>
    }
  }

  lemma ReplayMore(log: seq<Entry>, e: Entry)
    ensures Replay(log + [e]) == Apply(Replay(log), e)
  {
    assert (log + [e])[..|log|] == log;
  }

  /** Lines that are no entries are passed over; entries of another type are counted and otherwise ignored. */
  lemma {:induction false} ReplayLinesIsReplay(lines: seq<Line>)
    ensures ReplayLines(lines) == Replay(Readable(lines)).(transactionCount := Ungarbled(lines))
  {
    if lines != [] {
      var init, line := lines[..|lines| - 1], lines[|lines| - 1];
      ReplayLinesIsReplay(init);
      if line.Written? {
        ReplayMore(Readable(init), line.entry);
        ApplyToCount(Replay(Readable(init)), line.entry, Ungarbled(init));
      } else {
        assert Readable(init) + [] == Readable(init);
      }
    }
  }

  // ---- What recovery makes of a file, line by line ----

  function Get<K, V>(m: map<K, V>, k: K): Option<V> {
    if k in m then Some(m[k]) else None
  }

  predicate LineIsFor(line: Line, kind: Kind, id: int) {
    line.Written? && IsFor(line.entry, kind, id)
  }

  /** The last line for a place carries this payload, or no line is for it. */
  ghost predicate LastLineSays(lines: seq<Line>, kind: Kind, id: int, payload: Option<Payload>) {
    match payload
    case None => forall i :: 0 <= i < |lines| ==> !LineIsFor(lines[i], kind, id)
    case Some(p) =>
      exists i :: && 0 <= i < |lines| && lines[i] == Written(Entry(id, kind, p))
                  && forall j :: i < j < |lines| ==> !LineIsFor(lines[j], kind, id)
  }

  ghost predicate KeyOfLine(lines: seq<Line>, key: string) {
    exists i :: 0 <= i < |lines| && lines[i].Written? && lines[i].entry.kind == Generate
                && key == "plan:" + ShowInt(lines[i].entry.id)
  }

  ghost predicate TableReads(lines: seq<Line>, kind: Kind, table: map<int, Payload>) {
    forall id :: LastLineSays(lines, kind, id, Get(table, id))
  }

  ghost predicate KeysRead(lines: seq<Line>, keys: map<string, string>) {
    && (forall key :: key in keys <==> KeyOfLine(lines, key))
    && (forall key :: key in keys ==> keys[key] == "processing")
  }

  /** The lines that parse, by position. */
  ghost function Parsed(lines: seq<Line>): set<nat> {
    set i: nat | i < |lines| && lines[i] != Garbled
  }

  lemma LastLineSaysMore(lines: seq<Line>, line: Line, kind: Kind, id: int, payload: Option<Payload>)
    requires LastLineSays(lines, kind, id, payload)
    ensures LastLineSays(lines + [line], kind, id,
                         if LineIsFor(line, kind, id) then Some(line.entry.payload) else payload)
  {
    var all := lines + [line];
    if LineIsFor(line, kind, id) {
      assert all[|lines|] == Written(Entry(id, kind, line.entry.payload));
    } else if payload.Some? {
      var i :| && 0 <= i < |lines| && lines[i] == Written(Entry(id, kind, payload.value))
               && forall j :: i < j < |lines| ==> !LineIsFor(lines[j], kind, id);
      assert all[i] == Written(Entry(id, kind, payload.value));
      assert forall j :: i < j < |all| ==> !LineIsFor(all[j], kind, id);
    } else {
      assert forall i :: 0 <= i < |all| ==> !LineIsFor(all[i], kind, id);
    }
  }

  lemma LineTable(m: Mem, line: Line, kind: Kind, id: int)
    ensures Get(ReplayLine(m, line).Table(kind), id)
            == if LineIsFor(line, kind, id) then Some(line.entry.payload) else Get(m.Table(kind), id)
  {
    if line.Written? {
      ApplyTable(m, line.entry, kind);
    } else {
      SetKeyTables(m, Entry(id, kind, map[]));
    }
  }

  lemma {:induction false} PlaceReads(lines: seq<Line>, kind: Kind, id: int)
    ensures LastLineSays(lines, kind, id, Get(ReplayLines(lines).Table(kind), id))
  {
    if lines != [] {
      var n := |lines| - 1;
      PlaceReads(lines[..n], kind, id);
      LineTable(ReplayLines(lines[..n]), lines[n], kind, id);
      LastLineSaysMore(lines[..n], lines[n], kind, id, Get(ReplayLines(lines[..n]).Table(kind), id));
      assert lines[..n] + [lines[n]] == lines;
    }
  }

  lemma KeyOfLineMore(lines: seq<Line>, line: Line, key: string)
    ensures KeyOfLine(lines + [line], key)
            <==> KeyOfLine(lines, key)
                 || (line.Written? && line.entry.kind == Generate && key == "plan:" + ShowInt(line.entry.id))
  {
    var all := lines + [line];
    if KeyOfLine(lines, key) {
      var i :| 0 <= i < |lines| && lines[i].Written? && lines[i].entry.kind == Generate
               && key == "plan:" + ShowInt(lines[i].entry.id);
      assert all[i] == lines[i];
    }
    if line.Written? && line.entry.kind == Generate && key == "plan:" + ShowInt(line.entry.id) {
      assert all[|lines|] == line;
    }
  }

  /** What one line adds to the keys. */
  function KeysWith(keys: map<string, string>, line: Line): map<string, string> {
    if line.Written? && line.entry.kind == Generate then keys["plan:" + ShowInt(line.entry.id) := "processing"]
    else keys
  }

  lemma LineKeys(m: Mem, line: Line)
    ensures ReplayLine(m, line).redisMock == KeysWith(m.redisMock, line)
  {
    if line.Written? {
      SetKeyTables(m, line.entry);
    }
  }

  lemma KeysReadMore(lines: seq<Line>, line: Line, keys: map<string, string>)
    requires KeysRead(lines, keys)
    ensures KeysRead(lines + [line], KeysWith(keys, line))
  {
    forall key ensures key in KeysWith(keys, line) <==> KeyOfLine(lines + [line], key) {
      KeyOfLineMore(lines, line, key);
    }
  }

  lemma {:induction false} AllKeysRead(lines: seq<Line>)
    ensures KeysRead(lines, ReplayLines(lines).redisMock)
  {
    if lines != [] {
      var n := |lines| - 1;
      AllKeysRead(lines[..n]);
      LineKeys(ReplayLines(lines[..n]), lines[n]);
      KeysReadMore(lines[..n], lines[n], ReplayLines(lines[..n]).redisMock);
      assert lines[..n] + [lines[n]] == lines;
    }
  }

  lemma ParsedMore(lines: seq<Line>, line: Line)
    ensures |Parsed(lines + [line])| == |Parsed(lines)| + if line == Garbled then 0 else 1
  {
    assert Parsed(lines + [line]) == Parsed(lines) + if line == Garbled then {} else {|lines|};
  }

  lemma LineCount(m: Mem, line: Line)
    ensures ReplayLine(m, line).transactionCount == m.transactionCount + if line == Garbled then 0 else 1
  {
  }

  lemma {:induction false} AllLinesCounted(lines: seq<Line>)
    ensures ReplayLines(lines).transactionCount == |Parsed(lines)|
  {
    if lines != [] {
      var n := |lines| - 1;
      AllLinesCounted(lines[..n]);
      LineCount(ReplayLines(lines[..n]), lines[n]);
      ParsedMore(lines[..n], lines[n]);
      assert lines[..n] + [lines[n]] == lines;
    }
  }

  /** Recovery from any file: each place of each table holds what the last line for it says, the keys are those of
      the study plans, and every line that parses is counted. */
  lemma RecoveryReadsFile(lines: seq<Line>)
    ensures var m := ReplayLines(lines);
            && TableReads(lines, Generate, m.studyPlans) && TableReads(lines, Zoom, m.zoomSessions)
            && TableReads(lines, Search, m.searchLogs) && KeysRead(lines, m.redisMock)
            && m.transactionCount == |Parsed(lines)|
  {
    forall kind: Kind, id ensures LastLineSays(lines, kind, id, Get(ReplayLines(lines).Table(kind), id)) {
      PlaceReads(lines, kind, id);
    }
    var m := ReplayLines(lines);
    assert m.Table(Generate) == m.studyPlans && m.Table(Zoom) == m.zoomSessions && m.Table(Search) == m.searchLogs;
    AllKeysRead(lines);
    AllLinesCounted(lines);
  }

  /** The file the engine writes. */
  function Lines(log: seq<Entry>): (lines: seq<Line>)
    ensures |lines| == |log|
  {
    seq(|log|, i requires 0 <= i < |log| => Written(log[i]))
  }

  lemma {:induction false} ReplayOwnLines(log: seq<Entry>)
    ensures ReplayLines(Lines(log)) == Replay(log)
  {
    if log != [] {
      var n := |log| - 1;
      assert Lines(log)[..n] == Lines(log[..n]);
      ReplayOwnLines(log[..n]);
    }
  }
}
