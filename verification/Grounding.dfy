/** The context the retrieval engine prints, and why a verified response cites only retrieved verses. */
module Grounding {
  import opened Strings
  import opened Decimal
  import opened Citations

  const HEADER := "VALIDATED SCRIPTURAL CONTEXT:\n\n"

  datatype SearchResult = SearchResult(book: string, chapter: int, verse: int, textContent: string)

  datatype Fault = PromptRejected | SearchFailed | NothingFound

  datatype Outcome<T, E> = Ok(value: T) | Err(error: E)

  function Cite(r: SearchResult): string {
    "[" + r.book + " " + ShowInt(r.chapter) + ":" + ShowInt(r.verse) + "]"
  }

  function Segment(r: SearchResult): string {
    Cite(r) + " " + r.textContent + "\n"
  }

  function ContextOf(results: seq<SearchResult>): string {
    if results == [] then HEADER else ContextOf(results[..|results| - 1]) + Segment(results[|results| - 1])
  }

  // ---- What the context says, byte by byte ----

  /** A verse's line takes its book, numbers and text, and six bytes more. */
  function LineLength(r: SearchResult): nat {
    |r.book| + |ShowInt(r.chapter)| + |ShowInt(r.verse)| + |r.textContent| + 6
  }

  /** Where the line of verse i starts: after the header and the lines of the verses before it. */
  function LineStart(results: seq<SearchResult>, i: nat): (o: nat)
    requires i <= |results|
    ensures o >= 31
  {
    if i == 0 then 31 else LineStart(results, i - 1) + LineLength(results[i - 1])
  }

  /** A verse's citation and its own text. */
  function Line(r: SearchResult): string {
    "[" + r.book + " " + ShowInt(r.chapter) + ":" + ShowInt(r.verse) + "] " + r.textContent
  }

  /** The header, and then the line of each verse in order, and nothing else. */
  ghost predicate Prints(context: string, results: seq<SearchResult>) {
    && |context| == LineStart(results, |results|)
    && context[..31] == "VALIDATED SCRIPTURAL CONTEXT:\n\n"
    && forall i :: 0 <= i < |results| ==> HasLine(context, results, i)
  }

  /** The line of verse i stands at its offset. */
  ghost predicate HasLine(context: string, results: seq<SearchResult>, i: nat)
    requires i < |results|
  {
    && LineStart(results, i) <= LineStart(results, i + 1) <= |context|
    && context[LineStart(results, i)..LineStart(results, i + 1)] == Line(results[i]) + "\n"
  }

  function Lines(results: seq<SearchResult>): (lines: seq<string>)
    ensures |lines| == |results|
  {
    if results == [] then [] else Lines(results[..|results| - 1]) + [Line(results[|results| - 1])]
  }

  lemma {:induction false} LinesAt(results: seq<SearchResult>, i: nat)
    requires i < |results|
    ensures Lines(results)[i] == Line(results[i])
  {
    if i < |results| - 1 {
      LinesAt(results[..|results| - 1], i);
    }
  }

  lemma SegmentIsLine(r: SearchResult)
    ensures Segment(r) == Line(r) + "\n" && |Line(r)| + 1 == LineLength(r)
  {
  }

  lemma Regrouped(a: string, b: string, c: string, d: string)
    ensures a + b + (c + d) == a + (b + c + d)
  {
  }

  lemma TerminatedMore(lines: seq<string>, line: string)
    ensures Terminated(lines + [line], "\n") == Terminated(lines, "\n") + line + "\n"
  {
    assert (lines + [line])[..|lines|] == lines;
  }

  /** The header and then the lines, each with its line break. */
  lemma {:induction false} ContextIsLines(results: seq<SearchResult>)
    ensures ContextOf(results) == HEADER + Terminated(Lines(results), "\n")
  {
    if results == [] {
      assert HEADER + "" == HEADER;
    } else {
      var init, last := results[..|results| - 1], results[|results| - 1];
      ContextIsLines(init);
      SegmentIsLine(last);
      TerminatedMore(Lines(init), Line(last));
      Regrouped(HEADER, Terminated(Lines(init), "\n"), Line(last), "\n");
    }
  }

  /** The line is as long as the offsets take it to be. */
  ghost predicate FitsLength(results: seq<SearchResult>, lines: seq<string>, k: nat)
    requires k < |results| == |lines|
  {
    |lines[k]| + 1 == LineLength(results[k])
  }

  lemma LineStartStep(results: seq<SearchResult>, lines: seq<string>, i: nat, length: nat)
    requires i < |results| == |lines| && LineLength(results[i]) == length == |lines[i]| + 1
    requires LineStart(results, i) == 31 + PieceStart(lines, "\n", i)
    ensures LineStart(results, i + 1) == 31 + PieceStart(lines, "\n", i + 1)
  {
  }

  ghost predicate AllFit(results: seq<SearchResult>, lines: seq<string>)
    requires |results| == |lines|
  {
    forall k :: 0 <= k < |lines| ==> FitsLength(results, lines, k)
  }

  lemma LineStartIs(results: seq<SearchResult>, lines: seq<string>, i: nat)
    requires i <= |results| == |lines| && AllFit(results, lines)
    ensures LineStart(results, i) == 31 + PieceStart(lines, "\n", i)
  {
    for k := 0 to i
      invariant LineStart(results, k) == 31 + PieceStart(lines, "\n", k)
    {
      assert FitsLength(results, lines, k);
      LineStartStep(results, lines, k, |lines[k]| + 1);
    }
  }

  lemma LineLengths(results: seq<SearchResult>)
    ensures AllFit(results, Lines(results))
  {
    forall k | 0 <= k < |results| ensures FitsLength(results, Lines(results), k) {
      LinesAt(results, k);
      SegmentIsLine(results[k]);
    }
  }

  lemma SliceAfter(a: string, b: string, lo: nat, hi: nat)
    requires lo <= hi <= |b|
    ensures (a + b)[|a| + lo..|a| + hi] == b[lo..hi]
  {
  }

  lemma HeaderLength()
    ensures |HEADER| == 31
  {
  }

  lemma PieceIsPrinted(lines: seq<string>, header: string, i: nat)
    requires i < |lines| && |header| == 31
    ensures var lo, hi := 31 + PieceStart(lines, "\n", i), 31 + PieceStart(lines, "\n", i + 1);
            var context := header + Terminated(lines, "\n");
            lo <= hi <= |context| && context[lo..hi] == lines[i] + "\n"
  {
    PieceAt(lines, "\n", i);
    SliceAfter(header, Terminated(lines, "\n"), PieceStart(lines, "\n", i), PieceStart(lines, "\n", i + 1));
  }

  lemma LineIsPrinted(results: seq<SearchResult>, lines: seq<string>, header: string, body: string, i: nat)
    requires i < |results| == |lines| && lines[i] == Line(results[i])
    requires AllFit(results, lines)
    requires |header| == 31 && body == Terminated(lines, "\n")
    ensures HasLine(header + body, results, i)
  {
    LineStartIs(results, lines, i);
    LineStartIs(results, lines, i + 1);
    PieceIsPrinted(lines, header, i);
  }

  lemma ContextPrints(results: seq<SearchResult>)
    ensures Prints(ContextOf(results), results)
  {
    var lines := Lines(results);
    var body := Terminated(lines, "\n");
    ContextIsLines(results);
    HeaderLength();
    LineLengths(results);
    TerminatedLength(lines, "\n");
    LineStartIs(results, lines, |results|);
    assert (HEADER + body)[..31] == HEADER;
    forall i | 0 <= i < |results| ensures HasLine(HEADER + body, results, i) {
      LinesAt(results, i);
      LineIsPrinted(results, lines, HEADER, body, i);
    }
  }

  // ---- Reading the lines back ----

  /** Nothing in the verse breaks its line. */
  predicate OneLine(r: SearchResult) {
    '\n' !in r.book && '\n' !in r.textContent
  }

  lemma LineHasNoBreak(r: SearchResult)
    requires OneLine(r)
    ensures '\n' !in Line(r)
  {
    ShowIntChars(r.chapter);
    ShowIntChars(r.verse);
  }

  lemma HeaderLines(body: string)
    ensures Split(HEADER + body, "\n") == ["VALIDATED SCRIPTURAL CONTEXT:"] + ([""] + Split(body, "\n"))
  {
    var title := "VALIDATED SCRIPTURAL CONTEXT:";
    SplitField("", '\n', body);
    SplitField(title, '\n', "" + "\n" + body);
    assert title + "\n" + ("" + "\n" + body) == HEADER + body;
  }

  /** The header line, an empty one, the line of each verse in order, and an empty rest. */
  ghost predicate ReadsLines(read: seq<string>, results: seq<SearchResult>) {
    && |read| == |results| + 3 && read[0] == "VALIDATED SCRIPTURAL CONTEXT:" && read[1] == ""
    && read[|results| + 2] == ""
    && forall i :: 0 <= i < |results| ==> read[i + 2] == Line(results[i])
  }

  lemma HeaderAndLines<T>(read: seq<T>, title: T, empty: T, lines: seq<T>)
    requires read == [title] + ([empty] + (lines + [empty]))
    ensures |read| == |lines| + 3 && read[0] == title && read[1] == empty && read[|lines| + 2] == empty
    ensures forall i :: 0 <= i < |lines| ==> read[i + 2] == lines[i]
  {
  }

  /** If books and texts stay on their lines, splitting the context into lines gives back, after the header
      line and an empty one, for each verse in order its citation with its own text. */
  lemma ContextReadsBack(results: seq<SearchResult>)
    requires forall r :: r in results ==> OneLine(r)
    ensures ReadsLines(Split(ContextOf(results), "\n"), results)
  {
    var lines := Lines(results);
    ContextIsLines(results);
    LinesHaveNoBreak(results);
    SplitOfTerminated(lines, '\n');
    HeaderLines(Terminated(lines, "\n"));
    var read := Split(ContextOf(results), "\n");
    HeaderAndLines(read, "VALIDATED SCRIPTURAL CONTEXT:", "", lines);
    forall i | 0 <= i < |results| ensures read[i + 2] == Line(results[i]) {
      LinesAt(results, i);
    }
  }

  lemma LinesHaveNoBreak(results: seq<SearchResult>)
    requires forall r :: r in results ==> OneLine(r)
    ensures forall line :: line in Lines(results) ==> '\n' !in line
  {
    forall line | line in Lines(results) ensures '\n' !in line {
      var i :| 0 <= i < |results| && Lines(results)[i] == line;
      LinesAt(results, i);
      LineHasNoBreak(results[i]);
    }
  }

  // ---- Assembly ----

  /** Assembly of the context, after the prompt has been screened and the vector search has answered. */
  method CompileContext(promptOk: bool, search: Outcome<seq<SearchResult>, ()>) returns (r: Outcome<string, Fault>)
    ensures !promptOk ==> r == Err(PromptRejected)
    ensures promptOk && search.Err? ==> r == Err(SearchFailed)
    ensures promptOk && search.Ok? && search.value == [] ==> r == Err(NothingFound)
    ensures promptOk && search.Ok? && search.value != [] ==>
              r == Ok(ContextOf(search.value)) && Prints(r.value, search.value)
  {
    if !promptOk {
      return Err(PromptRejected);
    }
    if search.Err? {
      return Err(SearchFailed);
    }
    var results := search.value;
    if |results| == 0 {
      return Err(NothingFound);
    }
    var contextBuilder := HEADER;
    for i := 0 to |results|
      invariant contextBuilder == ContextOf(results[..i])
    {
      assert results[..i + 1][..i] == results[..i];
      var citation := "[" + results[i].book + " " + ShowInt(results[i].chapter) + ":" + ShowInt(results[i].verse) + "]";
      var segment := citation + " " + results[i].textContent + "\n";
      contextBuilder := contextBuilder + segment;
    }
    assert results[..|results|] == results;
    ContextPrints(results);
    return Ok(contextBuilder);
  }

  // ---- Brackets in the context ----

  predicate Free(s: string, c: char) {
    c !in s
  }

  /** Books without brackets, texts without an opening one. */
  predicate Plain(r: SearchResult) {
    Free(r.book, '[') && Free(r.book, ']') && Free(r.textContent, '[')
  }

  lemma ShowIntChars(n: int)
    ensures forall k :: 0 <= k < |ShowInt(n)| ==> IsDigit(ShowInt(n)[k]) || (k == 0 && n < 0 && ShowInt(n)[k] == '-')
    ensures n < 0 ==> ShowInt(n)[0] == '-'
    ensures ShowInt(n) != ""
  {
  }

  lemma CiteIsBracketed(r: SearchResult)
    requires Plain(r)
    ensures Bracketed(Cite(r))
  {
    ShowIntChars(r.chapter);
    ShowIntChars(r.verse);
    var w := Cite(r);
    var inner := r.book + " " + ShowInt(r.chapter) + ":" + ShowInt(r.verse);
    assert w == "[" + inner + "]";
    forall k | 0 < k < |w| - 1 ensures w[k] != '[' && w[k] != ']' {
      assert w[k] == inner[k - 1] && inner[k - 1] in inner;
      assert inner[k - 1] in r.book || inner[k - 1] == ' ' || inner[k - 1] in ShowInt(r.chapter)
             || inner[k - 1] == ':' || inner[k - 1] in ShowInt(r.verse);
    }
  }

  /** Two bracketed texts, one of them a prefix of where the other starts, are the same. */
  lemma BracketedPrefix(w: string, v: string, rest: string)
    requires Bracketed(w) && Bracketed(v) && OccursAt(v + rest, w, 0)
    ensures w == v
  {
    var s := v + rest;
    assert s[0..|w|] == w;
    assert forall k :: 0 <= k < |w| && k < |v| ==> v[k] == s[k] == w[k];
  }

  lemma OccursChar(s: string, w: string, k: nat, j: nat)
    requires OccursAt(s, w, k) && k <= j < k + |w|
    ensures s[j] == w[j - k]
  {
    assert s[k..k + |w|][j - k] == s[j];
  }

  /** A bracketed text occurs in a citation followed by text without `[` only as that citation. */
  lemma OccursInSegment(cite: string, tail: string, w: string, k: nat)
    requires Bracketed(cite) && Bracketed(w) && Free(tail, '[') && OccursAt(cite + tail, w, k)
    ensures w == cite
  {
    var s := cite + tail;
    OccursStart(s, w, k);
    assert forall j :: 0 < j < |s| ==> s[j] != '[' by {
      assert forall j :: |cite| <= j < |s| ==> s[j] == tail[j - |cite|];
    }
    BracketedPrefix(w, cite, tail);
  }

  /** An occurrence cannot straddle the start of a segment. */
  lemma NoStraddling(a: string, b: string, w: string, k: nat)
    requires b != "" && b[0] == '[' && Bracketed(w) && OccursAt(a + b, w, k)
    ensures (k + |w| <= |a| && OccursAt(a, w, k)) || (k >= |a| && OccursAt(b, w, k - |a|))
  {
    var s := a + b;
    assert s[|a|] == b[0] && s[|a|..|s|] == b && s[0..|a|] == a;
    if k >= |a| {
      OccursInSlice(s, w, |a|, |s|, k - |a|);
    } else if k + |w| <= |a| {
      OccursInSlice(s, w, 0, |a|, k);
    } else {
      OccursChar(s, w, k, |a|);
    }
  }

  lemma OccursInHeader(w: string, k: nat)
    requires Bracketed(w)
    ensures !OccursAt(HEADER, w, k)
  {
    if OccursAt(HEADER, w, k) {
      OccursStart(HEADER, w, k);
    }
  }

  lemma OccursInPrefix(a: string, b: string, w: string, k: nat)
    requires OccursAt(a, w, k)
    ensures OccursAt(a + b, w, k)
  {
    assert (a + b)[0..|a|] == a;
    OccursInSlice(a + b, w, 0, |a|, k);
  }

  lemma OccursAtStart(a: string, cite: string, tail: string)
    ensures OccursAt(a + (cite + tail), cite, |a|)
  {
    assert (a + (cite + tail))[|a|..|a| + |cite|] == cite;
  }

  lemma ContainedInEither(a: string, cite: string, tail: string, w: string, k: nat)
    requires Bracketed(cite) && Bracketed(w) && Free(tail, '[') && OccursAt(a + (cite + tail), w, k)
    ensures w == cite || OccursAt(a, w, k)
  {
    NoStraddling(a, cite + tail, w, k);
    if k >= |a| {
      OccursInSegment(cite, tail, w, k - |a|);
    }
  }

  lemma SegmentContains(a: string, cite: string, tail: string, w: string)
    requires Bracketed(cite) && Bracketed(w) && Free(tail, '[')
    ensures Contains(a + (cite + tail), w) <==> Contains(a, w) || w == cite
  {
    var all := a + (cite + tail);
    ContainsIffOccurs(all, w);
    ContainsIffOccurs(a, w);
    if k: nat :| OccursAt(all, w, k) {
      ContainedInEither(a, cite, tail, w, k);
    }
    if k: nat :| OccursAt(a, w, k) {
      OccursInPrefix(a, cite + tail, w, k);
    }
    OccursAtStart(a, cite, tail);
  }

  lemma SegmentTail(r: SearchResult) returns (tail: string)
    requires Plain(r)
    ensures Segment(r) == Cite(r) + tail && Free(tail, '[')
  {
    tail := " " + r.textContent + "\n";
    assert Segment(r) == Cite(r) + tail;
  }

  /** The context contains exactly the printed citations of the retrieved verses. */
  lemma {:induction false} ContextContains(results: seq<SearchResult>, w: string)
    requires (forall r :: r in results ==> Plain(r)) && Bracketed(w)
    ensures Contains(ContextOf(results), w) <==> exists r :: r in results && w == Cite(r)
  {
    if results == [] {
      ContainsIffOccurs(HEADER, w);
      forall k: nat ensures !OccursAt(HEADER, w, k) {
        OccursInHeader(w, k);
      }
    } else {
      var before, last := results[..|results| - 1], results[|results| - 1];
      ContextContains(before, w);
      CiteIsBracketed(last);
      var tail := SegmentTail(last);
      SegmentContains(ContextOf(before), Cite(last), tail, w);
      assert forall r :: r in results <==> r in before || r == last;
    }
  }

  // ---- Grounding ----

  /** The response has a citation, and each of its citations is the printed one of a retrieved verse. */
  ghost predicate Grounded(response: string, results: seq<SearchResult>) {
    && (exists w :: Cites(response, w))
    && forall w :: Cites(response, w) ==> exists r :: r in results && w == Cite(r)
  }

  /** Whatever can be read as a citation in the compiled context is the printed one of a retrieved verse. */
  predicate CitesOnlyResults(results: seq<SearchResult>) {
    forall w :: w in FindAll(ContextOf(results), 0) ==> exists r :: r in results && w == Cite(r)
  }

  lemma {:induction false} CiteOccurs(results: seq<SearchResult>, r: SearchResult) returns (k: nat)
    requires r in results
    ensures OccursAt(ContextOf(results), Cite(r), k)
  {
    var before, last := results[..|results| - 1], results[|results| - 1];
    if r == last {
      k := |ContextOf(before)|;
      var tail := " " + r.textContent + "\n";
      assert Segment(r) == Cite(r) + tail;
      OccursAtStart(ContextOf(before), Cite(r), tail);
    } else {
      k := CiteOccurs(before, r);
      OccursInPrefix(ContextOf(before), Segment(last), Cite(r), k);
    }
  }

  lemma ContainsIffFound(s: string, w: string)
    requires IsCitation(w)
    ensures Contains(s, w) <==> w in FindAll(s, 0)
  {
    ContainsIffOccurs(s, w);
    if k: nat :| OccursAt(s, w, k) {
      FindAllIsComplete(s, 0, w, k);
    }
    if w in FindAll(s, 0) {
      var k := FindAllIsSound(s, 0, w);
    }
  }

  /** In such a context exactly the printed citations are contained, among all citations. */
  lemma CitationInContext(results: seq<SearchResult>, w: string)
    requires IsCitation(w) && CitesOnlyResults(results)
    ensures Contains(ContextOf(results), w) <==> exists r :: r in results && w == Cite(r)
  {
    ContainsIffFound(ContextOf(results), w);
    if r :| r in results && w == Cite(r) {
      var k := CiteOccurs(results, r);
      ContainsIffOccurs(ContextOf(results), w);
    }
  }

  lemma VerifiedIffGroundedIn(response: string, results: seq<SearchResult>)
    requires CitesOnlyResults(results)
    ensures Verify(response, ContextOf(results)) == Verified <==> Grounded(response, results)
  {
    VerdictMeans(response, ContextOf(results));
    forall w | Cites(response, w)
      ensures Contains(ContextOf(results), w) <==> exists r :: r in results && w == Cite(r)
    {
      CitationInContext(results, w);
    }
  }

  lemma CitesSelfOnly(s: string, w: string)
    requires Bracketed(s) && Cites(s, w)
    ensures w == s
  {
    CitationIsBracketed(w);
    var k: nat :| OccursAt(s, w, k);
    OccursStart(s, w, k);
    assert s + "" == s;
    BracketedPrefix(w, s, "");
  }

  /** A citation of the context that is nobody's is accepted all the same. */
  lemma StrayCitationIsVerified(results: seq<SearchResult>, w: string)
    requires w in FindAll(ContextOf(results), 0) && forall r :: r in results ==> w != Cite(r)
    ensures Verify(w, ContextOf(results)) == Verified && !Grounded(w, results)
  {
    var k := FindAllIsSound(ContextOf(results), 0, w);
    CitationIsBracketed(w);
    ContainsIffOccurs(ContextOf(results), w);
    VerdictMeans(w, ContextOf(results));
    assert OccursAt(w, w, 0);
    assert Cites(w, w);
    forall v | Cites(w, v) ensures v == w {
      CitesSelfOnly(w, v);
    }
  }

  /** Verification means grounding, for every response, exactly when nothing but the printed citations can
      be read as a citation in the context. */
  lemma GroundingIsExact(results: seq<SearchResult>)
    ensures (forall response :: Verify(response, ContextOf(results)) == Verified <==> Grounded(response, results))
            <==> CitesOnlyResults(results)
  {
    if CitesOnlyResults(results) {
      forall response ensures Verify(response, ContextOf(results)) == Verified <==> Grounded(response, results) {
        VerifiedIffGroundedIn(response, results);
      }
    } else {
      var w :| w in FindAll(ContextOf(results), 0) && forall r :: r in results ==> w != Cite(r);
      StrayCitationIsVerified(results, w);
    }
  }

  lemma StrayOccurs(results: seq<SearchResult>, context: string, before: string, w: string, after: string)
    requires context == ContextOf(results) && context == before + (w + after)
    requires IsCitation(w) && forall r :: r in results ==> w != Cite(r)
    ensures !CitesOnlyResults(results) && Verify(w, context) == Verified && !Grounded(w, results)
  {
    OccursAtStart(before, w, after);
    FindAllIsComplete(context, 0, w, |before|);
    StrayCitationIsVerified(results, w);
  }

  lemma TextInSegment(header: string, cite: string, text: string)
    ensures header + (cite + " " + text + "\n") == header + (cite + " ") + (text + "\n")
  {
  }

  /** A retrieved verse whose text is the citation of another is enough to break it. */
  lemma QuotedCitationIsStray(quoting: SearchResult, quoted: SearchResult)
    requires quoting.textContent == Cite(quoted) && IsCitation(Cite(quoted)) && Cite(quoting) != Cite(quoted)
    ensures !CitesOnlyResults([quoting])
    ensures Verify(Cite(quoted), ContextOf([quoting])) == Verified && !Grounded(Cite(quoted), [quoting])
  {
    var before, w := HEADER + (Cite(quoting) + " "), Cite(quoted);
    ContextOfOne(quoting);
    TextInSegment(HEADER, Cite(quoting), w);
    StrayOccurs([quoting], ContextOf([quoting]), before, w, "\n");
  }

  lemma ContextOfOne(r: SearchResult)
    ensures ContextOf([r]) == HEADER + Segment(r)
  {
    assert [r][..0] == [];
  }

  /** For instance the first verse of Acts, were its text a reference to John 3:16. */
  lemma ActsQuotingJohn()
    ensures var john := SearchResult("John", 3, 16, "");
            var acts := SearchResult("Acts", 1, 1, Cite(john));
            && !CitesOnlyResults([acts])
            && Verify(Cite(john), ContextOf([acts])) == Verified && !Grounded(Cite(john), [acts])
  {
    var john := SearchResult("John", 3, 16, "");
    var acts := SearchResult("Acts", 1, 1, Cite(john));
    CiteIsCitation(john);
    assert Cite(acts)[1] == 'A' && Cite(john)[1] == 'J';
    QuotedCitationIsStray(acts, john);
  }

  /** It is so whenever books have no brackets and texts no opening one: then a response passes verification
      if and only if it has a citation and each of its citations is exactly that of a retrieved verse. */
  lemma VerifiedIffGrounded(response: string, results: seq<SearchResult>)
    requires forall r :: r in results ==> Plain(r)
    ensures CitesOnlyResults(results)
    ensures Verify(response, ContextOf(results)) == Verified <==> Grounded(response, results)
  {
    forall w | w in FindAll(ContextOf(results), 0) ensures exists r :: r in results && w == Cite(r) {
      var k := FindAllIsSound(ContextOf(results), 0, w);
      CitationIsBracketed(w);
      ContainsIffOccurs(ContextOf(results), w);
      ContextContains(results, w);
    }
    VerifiedIffGroundedIn(response, results);
  }

  // ---- Which verses the pattern can recognise ----

  lemma CiteReads(r: SearchResult)
    requires r.book != "" && AllNameChars(r.book) && r.chapter >= 0 && r.verse >= 0
    ensures Reads(Cite(r), r.book, ' ', Show(r.chapter), Show(r.verse))
  {
  }

  /** Where the parts of a printed citation are. */
  lemma CiteAt(r: SearchResult)
    ensures var w, p, c := Cite(r), |r.book| + 1, ShowInt(r.chapter);
            && |w| == p + |c| + |ShowInt(r.verse)| + 3
            && (forall k :: 0 <= k < |r.book| ==> w[k + 1] == r.book[k])
            && w[p] == ' ' && w[p + 1] == c[0] && w[p + |c| + 1] == ':' && w[p + |c| + 2] == ShowInt(r.verse)[0]
  {
  }

  /** The book of a citation read back is the name, up to the character before the first digit. */
  lemma CiteIsReadable(r: SearchResult)
    requires IsCitation(Cite(r))
    ensures r.book != "" && AllNameChars(r.book) && r.chapter >= 0 && r.verse >= 0
  {
    ShowIntChars(r.chapter);
    ShowIntChars(r.verse);
    CiteAt(r);
    var w := Cite(r);
    var name, space, chapter, verse :| Reads(w, name, space, chapter, verse);
    ReadsAt(w, name, space, chapter, verse);
    assert |r.book| + 2 == |name| + 2;
  }

  /** A printed citation is in the pattern's language exactly when the book is made of letters and white
      space and the numbers are not negative. */
  lemma CiteIsCitation(r: SearchResult)
    ensures IsCitation(Cite(r)) <==> r.book != "" && AllNameChars(r.book) && r.chapter >= 0 && r.verse >= 0
  {
    if r.book != "" && AllNameChars(r.book) && r.chapter >= 0 && r.verse >= 0 {
      CiteReads(r);
    }
    if IsCitation(Cite(r)) {
      CiteIsReadable(r);
    }
  }

  /** Name, chapter and verse, as the scanner delimits them. */
  function PartsOf(w: string): (string, string, string) {
    if w == "" then ("", "", "")
    else
      var n := Skip(w, 1, IsNameChar);
      var d := Skip(w, n, IsDigit);
      if n < 2 || d + 2 > |w| then ("", "", "") else (w[1..n - 1], w[n..d], w[d + 1..|w| - 1])
  }

  lemma ReadsSlices(w: string, name: string, space: char, chapter: string, verse: string)
    requires Reads(w, name, space, chapter, verse)
    ensures var n := |name| + 2;
            var d := n + |chapter|;
            && n <= d < |w| - 1 && w[1..n - 1] == name && w[n..d] == chapter && w[d + 1..|w| - 1] == verse
  {
  }

  lemma ReadsParts(w: string, name: string, space: char, chapter: string, verse: string)
    requires Reads(w, name, space, chapter, verse)
    ensures PartsOf(w) == (name, chapter, verse)
  {
    ReadsAt(w, name, space, chapter, verse);
    ReadsSlices(w, name, space, chapter, verse);
    SkipIs(w, 1, |name| + 2, IsNameChar);
    SkipIs(w, |name| + 2, |name| + 2 + |chapter|, IsDigit);
  }

  lemma CiteParts(r: SearchResult)
    requires IsCitation(Cite(r))
    ensures r.chapter >= 0 && r.verse >= 0 && PartsOf(Cite(r)) == (r.book, Show(r.chapter), Show(r.verse))
  {
    CiteIsReadable(r);
    CiteReads(r);
    ReadsParts(Cite(r), r.book, ' ', Show(r.chapter), Show(r.verse));
  }

  /** Distinct verses have distinct citations. */
  lemma CiteInjective(r: SearchResult, q: SearchResult)
    requires IsCitation(Cite(r)) && Cite(r) == Cite(q)
    ensures r.book == q.book && r.chapter == q.chapter && r.verse == q.verse
  {
    CiteParts(r);
    CiteParts(q);
    ShowInjective(r.chapter, q.chapter);
    ShowInjective(r.verse, q.verse);
  }

  /** A verified response that prints the citation of a verse was given that very verse. */
  lemma CitedVerseWasRetrieved(response: string, results: seq<SearchResult>, q: SearchResult)
    returns (r: SearchResult)
    requires CitesOnlyResults(results)
    requires Verify(response, ContextOf(results)) == Verified && Cites(response, Cite(q))
    ensures r in results && r.book == q.book && r.chapter == q.chapter && r.verse == q.verse
  {
    VerifiedIffGroundedIn(response, results);
    r :| r in results && Cite(q) == Cite(r);
    CiteInjective(q, r);
  }

  /** A response that cites only a retrieved verse of a numbered book is turned down as citing nothing. */
  lemma NumberedBookIsNotACitation(text: string)
    ensures var r := SearchResult("1 John", 4, 8, text);
            Verify(Cite(r), ContextOf([r])) == NoCitation
  {
    var r := SearchResult("1 John", 4, 8, text);
    var s := Cite(r);
    assert r.book[0] == '1' && !AllNameChars(r.book);
    CiteIsCitation(r);
    CiteIsBracketed(SearchResult("1 John", 4, 8, ""));
    VerdictMeans(s, ContextOf([r]));
    forall w | Cites(s, w) ensures w == s {
      CitesSelfOnly(s, w);
    }
  }
}
