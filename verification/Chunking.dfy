/** The map-reduce chunker: greedy packing of paragraphs, and of sentences where a paragraph is too
    long by itself, with a builder that is flushed when the next piece would not fit. */
module Chunking {
  import opened Strings

  const PARAGRAPH := "\n\n"
  const SENTENCE := ". "

  /** The chunks already cut and the contents of the builder. */
  datatype Packer = Packer(chunks: seq<string>, current: string)

  function Flush(pk: Packer, next: nat, max: nat): Packer {
    if |pk.current| + next > max && |pk.current| > 0 then Packer(pk.chunks + [pk.current], "") else pk
  }

  function AddSentence(pk: Packer, s: string, max: nat): Packer {
    var q := Flush(pk, |s|, max);
    q.(current := q.current + s + SENTENCE)
  }

  function AddSentences(pk: Packer, ss: seq<string>, max: nat): Packer {
    if ss == [] then pk else AddSentence(AddSentences(pk, ss[..|ss| - 1], max), ss[|ss| - 1], max)
  }

  function AddParagraph(pk: Packer, p: string, max: nat): Packer {
    var q := Flush(pk, |p|, max);
    if |p| > max then AddSentences(q, Split(p, SENTENCE), max)
    else q.(current := q.current + p + PARAGRAPH)
  }

  function AddParagraphs(pk: Packer, ps: seq<string>, max: nat): Packer {
    if ps == [] then pk else AddParagraph(AddParagraphs(pk, ps[..|ps| - 1], max), ps[|ps| - 1], max)
  }

  function Pack(text: string, max: nat): Packer {
    AddParagraphs(Packer([], ""), Split(text, PARAGRAPH), max)
  }

  function Chunks(text: string, max: nat, white: char -> bool): seq<string> {
    if |text| <= max then [text]
    else
      var pk := Pack(text, max);
      if |pk.current| > 0 then pk.chunks + [TrimSpace(pk.current, white)] else pk.chunks
  }

  // ---- What the chunks are made of ----

  /** The paragraphs, each followed by its terminator: two newlines, or ". " after an over-long one. */
  function Retagged(ps: seq<string>, max: nat): string {
    if ps == [] then ""
    else
      var p := ps[|ps| - 1];
      Retagged(ps[..|ps| - 1], max) + p + (if |p| > max then ". " else "\n\n")
  }

  function OverLong(ps: seq<string>, max: nat): (n: nat)
    ensures n <= |ps|
  {
    if ps == [] then 0 else OverLong(ps[..|ps| - 1], max) + (if |ps[|ps| - 1]| > max then 1 else 0)
  }

  /** A sentence of an over-long paragraph of `ps` that is longer than max by itself, with its delimiter. */
  ghost predicate IsLongSentence(c: string, ps: seq<string>, max: nat) {
    exists p, s :: p in ps && |p| > max && s in Split(p, ". ") && |s| > max && c == s + ". "
  }

  /** At most max + 2 bytes, or one such sentence. */
  ghost predicate FitsOrIsOneSentence(c: string, ps: seq<string>, max: nat) {
    |c| <= max + 2 || IsLongSentence(c, ps, max)
  }

  predicate EndsAtBoundary(c: string) {
    |c| >= 2 && (c[|c| - 2..] == ". " || c[|c| - 2..] == "\n\n")
  }

  /** Everything written so far, in order. */
  function Written(pk: Packer): string {
    Concat(pk.chunks) + pk.current
  }

  ghost predicate WellCut(pk: Packer, ps: seq<string>, max: nat) {
    && (forall c :: c in pk.chunks ==> FitsOrIsOneSentence(c, ps, max) && EndsAtBoundary(c))
    && FitsOrIsOneSentence(pk.current, ps, max)
    && (pk.current == "" || EndsAtBoundary(pk.current))
  }

  /** a times m, by addition. */
  function Multiple(a: int, m: nat): int
    decreases if a < 0 then -a else a
  {
    if a == 0 then 0 else if a > 0 then Multiple(a - 1, m) + m else Multiple(a + 1, m) - m
  }

  lemma {:induction false} MultipleIsProduct(a: int, m: nat)
    ensures Multiple(a, m) == a * m
    decreases if a < 0 then -a else a
  {
    if a > 0 {
      MultipleIsProduct(a - 1, m);
    } else if a < 0 {
      MultipleIsProduct(a + 1, m);
    }
  }

  lemma MultipleStep(a: int, m: nat)
    ensures Multiple(a + 1, m) == Multiple(a, m) + m
  {
  }

  /** The greedy argument: two neighbouring chunks exceed max + 2 together, except where one of the
      `long` over-long paragraphs began. */
  ghost predicate Few(pk: Packer, long: nat, max: nat) {
    Multiple(|pk.chunks| - long, max + 3) <= 2 * |Concat(pk.chunks)| + |pk.current|
  }

  lemma FlushWritten(pk: Packer, next: nat, max: nat)
    ensures Written(Flush(pk, next, max)) == Written(pk)
  {
    assert Flush(pk, next, max) != pk ==> Flush(pk, next, max).chunks[..|pk.chunks|] == pk.chunks;
  }

  /** One more piece and its delimiter, by the rule both loops share. */
  function Append(pk: Packer, piece: string, delimiter: string, max: nat): Packer {
    var q := Flush(pk, |piece|, max);
    q.(current := q.current + piece + delimiter)
  }

  lemma AppendWritten(pk: Packer, piece: string, delimiter: string, max: nat)
    ensures Written(Append(pk, piece, delimiter, max)) == Written(pk) + (piece + delimiter)
  {
    FlushWritten(pk, |piece|, max);
    var q := Flush(pk, |piece|, max);
    assert Concat(q.chunks) + (q.current + piece + delimiter) == Concat(q.chunks) + q.current + (piece + delimiter);
  }

  lemma FlushWellCut(pk: Packer, ps: seq<string>, next: nat, max: nat)
    requires WellCut(pk, ps, max)
    ensures WellCut(Flush(pk, next, max), ps, max)
  {
    var q := Flush(pk, next, max);
    assert forall c :: c in q.chunks ==> c in pk.chunks || c == pk.current;
  }

  lemma AppendWellCut(pk: Packer, ps: seq<string>, piece: string, delimiter: string, max: nat)
    requires WellCut(pk, ps, max) && (delimiter == SENTENCE || delimiter == PARAGRAPH)
    requires |piece| <= max || (delimiter == SENTENCE && IsLongSentence(piece + SENTENCE, ps, max))
    ensures WellCut(Append(pk, piece, delimiter, max), ps, max)
  {
    FlushWellCut(pk, ps, |piece|, max);
    var q, r := Flush(pk, |piece|, max), Append(pk, piece, delimiter, max);
    assert r.current[|r.current| - 2..] == delimiter;
    if q.current == "" {
      assert r.current == piece + delimiter;
    }
  }

  lemma MoreParagraphs(pk: Packer, ps: seq<string>, more: seq<string>, max: nat)
    requires WellCut(pk, ps, max) && forall p :: p in ps ==> p in more
    ensures WellCut(pk, more, max)
  {
    forall c | IsLongSentence(c, ps, max) ensures IsLongSentence(c, more, max) {
      var p, s :| p in ps && |p| > max && s in Split(p, ". ") && |s| > max && c == s + ". ";
      assert p in more;
    }
  }

  lemma AppendFew(pk: Packer, long: nat, piece: string, delimiter: string, max: nat)
    requires Few(pk, long, max) && |delimiter| == 2
    ensures Few(Append(pk, piece, delimiter, max), long, max)
  {
    var q := Flush(pk, |piece|, max);
    if q != pk {
      assert q.chunks[..|pk.chunks|] == pk.chunks;
      MultipleStep(|pk.chunks| - long, max + 3);
    }
  }

  /** Starting an over-long paragraph may cut a chunk however short. */
  lemma FlushFew(pk: Packer, long: nat, next: nat, max: nat)
    requires Few(pk, long, max)
    ensures Few(Flush(pk, next, max), long + 1, max)
  {
    var q := Flush(pk, next, max);
    MultipleStep(|pk.chunks| - (long + 1), max + 3);
    if q != pk {
      assert q.chunks[..|pk.chunks|] == pk.chunks;
    }
  }

  lemma {:induction false} SentencesWritten(pk: Packer, ss: seq<string>, max: nat)
    ensures Written(AddSentences(pk, ss, max)) == Written(pk) + Terminated(ss, SENTENCE)
  {
    if ss == [] {
      assert Written(pk) + "" == Written(pk);
    } else {
      var n := |ss| - 1;
      SentencesWritten(pk, ss[..n], max);
      AppendWritten(AddSentences(pk, ss[..n], max), ss[n], SENTENCE, max);
      Associates(Written(pk), Terminated(ss[..n], SENTENCE), ss[n], SENTENCE);
    }
  }

  lemma Associates(a: string, b: string, c: string, d: string)
    ensures a + b + (c + d) == a + (b + c + d)
  {
  }

  lemma ParagraphWritten(pk: Packer, p: string, max: nat)
    ensures Written(AddParagraph(pk, p, max)) == Written(pk) + (p + if |p| > max then SENTENCE else PARAGRAPH)
  {
    if |p| > max {
      FlushWritten(pk, |p|, max);
      SplitTerminated(p, SENTENCE);
      SentencesWritten(Flush(pk, |p|, max), Split(p, SENTENCE), max);
    } else {
      AppendWritten(pk, p, PARAGRAPH, max);
    }
  }

  lemma {:induction false} ParagraphsWritten(ps: seq<string>, max: nat)
    ensures Written(AddParagraphs(Packer([], ""), ps, max)) == Retagged(ps, max)
  {
    if ps != [] {
      var n := |ps| - 1;
      ParagraphsWritten(ps[..n], max);
      ParagraphWritten(AddParagraphs(Packer([], ""), ps[..n], max), ps[n], max);
    }
  }

  lemma {:induction false} SentencesWellCut(pk: Packer, ps: seq<string>, p: string, ss: seq<string>, max: nat)
    requires WellCut(pk, ps, max) && p in ps && |p| > max && forall s :: s in ss ==> s in Split(p, SENTENCE)
    ensures WellCut(AddSentences(pk, ss, max), ps, max)
  {
    if ss != [] {
      var n := |ss| - 1;
      SentencesWellCut(pk, ps, p, ss[..n], max);
      assert |ss[n]| > max ==> IsLongSentence(ss[n] + SENTENCE, ps, max);
      AppendWellCut(AddSentences(pk, ss[..n], max), ps, ss[n], SENTENCE, max);
    }
  }

  lemma ParagraphWellCut(pk: Packer, ps: seq<string>, p: string, max: nat)
    requires WellCut(pk, ps, max) && p in ps
    ensures WellCut(AddParagraph(pk, p, max), ps, max)
  {
    if |p| > max {
      FlushWellCut(pk, ps, |p|, max);
      SentencesWellCut(Flush(pk, |p|, max), ps, p, Split(p, SENTENCE), max);
    } else {
      AppendWellCut(pk, ps, p, PARAGRAPH, max);
    }
  }

  lemma {:induction false} ParagraphsWellCut(ps: seq<string>, max: nat)
    ensures WellCut(AddParagraphs(Packer([], ""), ps, max), ps, max)
  {
    if ps != [] {
      var n := |ps| - 1;
      var pk := AddParagraphs(Packer([], ""), ps[..n], max);
      ParagraphsWellCut(ps[..n], max);
      MoreParagraphs(pk, ps[..n], ps, max);
      ParagraphWellCut(pk, ps, ps[n], max);
    }
  }

  lemma {:induction false} SentencesFew(pk: Packer, long: nat, ss: seq<string>, max: nat)
    requires Few(pk, long, max)
    ensures Few(AddSentences(pk, ss, max), long, max)
  {
    if ss != [] {
      var n := |ss| - 1;
      SentencesFew(pk, long, ss[..n], max);
      AppendFew(AddSentences(pk, ss[..n], max), long, ss[n], SENTENCE, max);
    }
  }

  lemma ParagraphFew(pk: Packer, long: nat, p: string, max: nat)
    requires Few(pk, long, max)
    ensures Few(AddParagraph(pk, p, max), if |p| > max then long + 1 else long, max)
  {
    if |p| > max {
      FlushFew(pk, long, |p|, max);
      SentencesFew(Flush(pk, |p|, max), long + 1, Split(p, SENTENCE), max);
    } else {
      AppendFew(pk, long, p, PARAGRAPH, max);
    }
  }

  lemma {:induction false} ParagraphsFew(ps: seq<string>, max: nat)
    ensures Few(AddParagraphs(Packer([], ""), ps, max), OverLong(ps, max), max)
  {
    if ps != [] {
      var n := |ps| - 1;
      ParagraphsFew(ps[..n], max);
      ParagraphFew(AddParagraphs(Packer([], ""), ps[..n], max), OverLong(ps[..n], max), ps[n], max);
    }
  }

  // ---- When no piece is too long ----

  ghost predicate Big(pk: Packer, max: nat) {
    |pk.current| > max + 2 || exists c :: c in pk.chunks && |c| > max + 2
  }

  lemma FlushBig(pk: Packer, next: nat, max: nat)
    ensures Big(Flush(pk, next, max), max) <==> Big(pk, max)
  {
    var q := Flush(pk, next, max);
    if q != pk {
      assert q.chunks[|pk.chunks|] == pk.current;
      assert forall c :: c in q.chunks <==> c in pk.chunks || c == pk.current;
    }
  }

  lemma {:induction false} SentencesBig(pk: Packer, ss: seq<string>, max: nat)
    ensures Big(AddSentences(pk, ss, max), max) <==> Big(pk, max) || exists s :: s in ss && |s| > max
  {
    if ss != [] {
      var n := |ss| - 1;
      SentencesBig(pk, ss[..n], max);
      FlushBig(AddSentences(pk, ss[..n], max), |ss[n]|, max);
      assert forall s :: s in ss <==> s in ss[..n] || s == ss[n];
    }
  }

  /** Some sentence of some paragraph is longer than max. */
  predicate HasLongSentence(ps: seq<string>, max: nat) {
    ps != [] && (HasLongSentence(ps[..|ps| - 1], max)
                 || (|ps[|ps| - 1]| > max && exists s :: s in Split(ps[|ps| - 1], ". ") && |s| > max))
  }

  lemma {:induction false} ParagraphsBig(ps: seq<string>, max: nat)
    ensures Big(AddParagraphs(Packer([], ""), ps, max), max) <==> HasLongSentence(ps, max)
  {
    if ps != [] {
      var n := |ps| - 1;
      var pk := AddParagraphs(Packer([], ""), ps[..n], max);
      ParagraphsBig(ps[..n], max);
      FlushBig(pk, |ps[n]|, max);
      if |ps[n]| > max {
        SentencesBig(Flush(pk, |ps[n]|, max), Split(ps[n], SENTENCE), max);
      }
    }
  }

  // ---- When the documented limit is kept ----

  /** What the packer is fed, by length alone: a piece, or the cut made where an over-long paragraph begins. */
  datatype Mark = Cut | Piece(len: nat)

  function SentenceMarks(ss: seq<string>): seq<Mark> {
    if ss == [] then [] else SentenceMarks(ss[..|ss| - 1]) + [Piece(|ss[|ss| - 1]|)]
  }

  function MarksOf(p: string, max: nat): seq<Mark> {
    if |p| > max then [Cut] + SentenceMarks(Split(p, SENTENCE)) else [Piece(|p|)]
  }

  function ParagraphMarks(ps: seq<string>, max: nat): seq<Mark> {
    if ps == [] then [] else ParagraphMarks(ps[..|ps| - 1], max) + MarksOf(ps[|ps| - 1], max)
  }

  /** The length of the builder after the marks: a piece that does not fit starts anew. */
  function Fill(ms: seq<Mark>, max: nat): nat {
    if ms == [] then 0
    else
      var t := Fill(ms[..|ms| - 1], max);
      match ms[|ms| - 1]
      case Cut => 0
      case Piece(n) => if t + n > max then n + 2 else t + n + 2
  }

  /** Every piece that was accepted left room for its delimiter. */
  predicate Roomy(ms: seq<Mark>, max: nat) {
    ms == [] || (Roomy(ms[..|ms| - 1], max) && Fill(ms, max) <= max)
  }

  /** The same, asked only of builders that were flushed. */
  predicate RoomyBeforeLast(ms: seq<Mark>, max: nat) {
    ms == []
    || (var t, m := Fill(ms[..|ms| - 1], max), ms[|ms| - 1];
        RoomyBeforeLast(ms[..|ms| - 1], max) && (m == Cut || t + m.len > max ==> t <= max))
  }

  /** The packer's lengths are those of the marks. */
  ghost predicate Measured(pk: Packer, ms: seq<Mark>, max: nat) {
    && |pk.current| == Fill(ms, max)
    && ((forall c :: c in pk.chunks ==> |c| <= max) <==> RoomyBeforeLast(ms, max))
    && ((forall c :: c in pk.chunks ==> |c| <= max) && |pk.current| <= max <==> Roomy(ms, max))
  }

  lemma FlushMeasured(pk: Packer, next: nat, max: nat)
    ensures var q := Flush(pk, next, max);
            (forall c :: c in q.chunks ==> |c| <= max)
            <==> (forall c :: c in pk.chunks ==> |c| <= max) && (|pk.current| + next > max ==> |pk.current| <= max)
  {
    var q := Flush(pk, next, max);
    if q != pk {
      assert q.chunks[|pk.chunks|] == pk.current;
      assert forall c :: c in q.chunks <==> c in pk.chunks || c == pk.current;
    }
  }

  lemma CutMeasured(pk: Packer, ms: seq<Mark>, next: nat, max: nat)
    requires Measured(pk, ms, max) && next > max
    ensures Measured(Flush(pk, next, max), ms + [Cut], max)
  {
    FlushMeasured(pk, next, max);
    assert (ms + [Cut])[..|ms|] == ms;
  }

  lemma AppendMeasured(pk: Packer, ms: seq<Mark>, piece: string, delimiter: string, max: nat)
    requires Measured(pk, ms, max) && |delimiter| == 2
    ensures Measured(Append(pk, piece, delimiter, max), ms + [Piece(|piece|)], max)
  {
    FlushMeasured(pk, |piece|, max);
    assert (ms + [Piece(|piece|)])[..|ms|] == ms;
  }

  lemma {:induction false} SentencesMeasured(pk: Packer, ms: seq<Mark>, ss: seq<string>, max: nat)
    requires Measured(pk, ms, max)
    ensures Measured(AddSentences(pk, ss, max), ms + SentenceMarks(ss), max)
  {
    if ss == [] {
      assert ms + [] == ms;
    } else {
      var n := |ss| - 1;
      SentencesMeasured(pk, ms, ss[..n], max);
      AppendMeasured(AddSentences(pk, ss[..n], max), ms + SentenceMarks(ss[..n]), ss[n], SENTENCE, max);
      assert ms + SentenceMarks(ss[..n]) + [Piece(|ss[n]|)] == ms + SentenceMarks(ss);
    }
  }

  lemma ParagraphMeasured(pk: Packer, ms: seq<Mark>, p: string, max: nat)
    requires Measured(pk, ms, max)
    ensures Measured(AddParagraph(pk, p, max), ms + MarksOf(p, max), max)
  {
    if |p| > max {
      var marks := SentenceMarks(Split(p, SENTENCE));
      CutMeasured(pk, ms, |p|, max);
      SentencesMeasured(Flush(pk, |p|, max), ms + [Cut], Split(p, SENTENCE), max);
      assert ms + [Cut] + marks == ms + ([Cut] + marks);
    } else {
      AppendMeasured(pk, ms, p, PARAGRAPH, max);
    }
  }

  lemma {:induction false} ParagraphsMeasured(ps: seq<string>, max: nat)
    ensures Measured(AddParagraphs(Packer([], ""), ps, max), ParagraphMarks(ps, max), max)
  {
    if ps != [] {
      var n := |ps| - 1;
      ParagraphsMeasured(ps[..n], max);
      ParagraphMeasured(AddParagraphs(Packer([], ""), ps[..n], max), ParagraphMarks(ps[..n], max), ps[n], max);
    }
  }

  /** Retagging moves nothing: it only overwrites newlines, by the two bytes ". ". */
  lemma {:induction false} RetaggedIsInPlace(ps: seq<string>, max: nat)
    ensures var r, t := Retagged(ps, max), Terminated(ps, "\n\n");
            && |r| == |t|
            && (forall i :: 0 <= i < |t| ==> r[i] == t[i] || (t[i] == '\n' && r[i] in ". "))
            && (OverLong(ps, max) == 0 ==> r == t)
  {
    if ps != [] {
      RetaggedIsInPlace(ps[..|ps| - 1], max);
    }
  }

  lemma BuilderEndsNonEmpty(ps: seq<string>, max: nat)
    requires ps != []
    ensures |AddParagraphs(Packer([], ""), ps, max).current| > 0
  {
  }

  /** What the packer is left with when the text has run out; the builder is never empty then. */
  lemma PackResult(text: string, max: nat, white: char -> bool) returns (pk: Packer)
    requires |text| > max
    ensures var ps := Split(text, PARAGRAPH);
            && pk == AddParagraphs(Packer([], ""), ps, max)
            && (Big(pk, max) <==> HasLongSentence(ps, max))
            && Chunks(text, max, white) == pk.chunks + [TrimSpace(pk.current, white)]
            && pk.current != "" && WellCut(pk, ps, max)
            && Written(pk) == Retagged(ps, max) && |Written(pk)| == |text| + 2
  {
    var ps := Split(text, PARAGRAPH);
    pk := Pack(text, max);
    ParagraphsWritten(ps, max);
    ParagraphsWellCut(ps, max);
    ParagraphsBig(ps, max);
    RetaggedIsInPlace(ps, max);
    SplitTerminated(text, PARAGRAPH);
    BuilderEndsNonEmpty(ps, max);
  }

  // ---- Theorems ----

  /** Nothing is lost. The chunks, the last one taken before trimming, spell the text and two more
      newlines, except that the terminator of an over-long paragraph has become ". ". */
  lemma ChunksLoseNothing(text: string, max: nat, white: char -> bool) returns (last: string)
    requires |text| > max
    ensures var cs, r := Chunks(text, max, white), Retagged(Split(text, "\n\n"), max);
            && |cs| > 0 && cs[|cs| - 1] == TrimSpace(last, white)
            && Concat(cs[..|cs| - 1]) + last == r
            && |r| == |text| + 2
            && (forall i :: 0 <= i < |r| ==> r[i] == (text + "\n\n")[i]
                                             || ((text + "\n\n")[i] == '\n' && r[i] in ". "))
            && (OverLong(Split(text, "\n\n"), max) == 0 ==> r == text + "\n\n")
  {
    var pk := PackResult(text, max, white);
    RetaggedIsInPlace(Split(text, PARAGRAPH), max);
    SplitTerminated(text, PARAGRAPH);
    last := pk.current;
    assert Chunks(text, max, white)[..|pk.chunks|] == pk.chunks;
  }

  /** Every chunk but the last fits in max + 2 bytes or is one sentence of an over-long paragraph that is
      itself longer than max, and is cut right after a sentence or a paragraph; the last one is such a piece,
      trimmed. */
  lemma ChunksAreBounded(text: string, max: nat, white: char -> bool) returns (last: string)
    requires |text| > max
    ensures var cs := Chunks(text, max, white);
            && |cs| > 0 && cs[|cs| - 1] == TrimSpace(last, white) && |cs[|cs| - 1]| <= |last|
            && (forall c :: c in cs[..|cs| - 1] + [last] ==>
                              FitsOrIsOneSentence(c, Split(text, "\n\n"), max) && EndsAtBoundary(c))
  {
    var pk := PackResult(text, max, white);
    last := pk.current;
    assert Chunks(text, max, white)[..|pk.chunks|] == pk.chunks;
    var lead, trail := TrimSpaceSplits(last, white);
  }

  /** The pieces, before the last is trimmed, all stay within max + 2 bytes exactly when no sentence
      is longer than max. */
  lemma ChunksFitIffSentencesDo(text: string, max: nat, white: char -> bool) returns (last: string)
    requires |text| > max
    ensures var cs := Chunks(text, max, white);
            && |cs| > 0 && cs[|cs| - 1] == TrimSpace(last, white)
            && ((forall c :: c in cs[..|cs| - 1] + [last] ==> |c| <= max + 2)
                <==> !HasLongSentence(Split(text, "\n\n"), max))
  {
    var pk := PackResult(text, max, white);
    last := pk.current;
    var pieces := Chunks(text, max, white)[..|pk.chunks|] + [last];
    assert pieces == pk.chunks + [last];
    assert pieces[|pk.chunks|] == last;
  }

  /** The documented limit is kept by every chunk exactly if, scanning the lengths of paragraphs and
      sentences, every builder that is flushed stays within it and the last one does once trimmed. By the
      same scan all pieces are within it before trimming exactly if each left room for its delimiter. */
  lemma LimitIsKeptIff(text: string, max: nat, white: char -> bool) returns (last: string)
    requires |text| > max
    ensures var cs, ms := Chunks(text, max, white), ParagraphMarks(Split(text, "\n\n"), max);
            && |cs| > 0 && cs[|cs| - 1] == TrimSpace(last, white) && |last| == Fill(ms, max)
            && Concat(cs[..|cs| - 1]) + last == Retagged(Split(text, "\n\n"), max)
            && ((forall c :: c in cs ==> |c| <= max) <==> RoomyBeforeLast(ms, max) && |TrimSpace(last, white)| <= max)
            && ((forall c :: c in cs[..|cs| - 1] + [last] ==> |c| <= max) <==> Roomy(ms, max))
  {
    var ps := Split(text, PARAGRAPH);
    var pk := PackResult(text, max, white);
    last := pk.current;
    ParagraphsMeasured(ps, max);
    EveryChunk(pk.chunks, TrimSpace(last, white), max);
    EveryChunk(pk.chunks, last, max);
    assert Chunks(text, max, white)[..|pk.chunks|] == pk.chunks;
  }

  lemma EveryChunk(cs: seq<string>, c: string, max: nat)
    ensures (forall x :: x in cs + [c] ==> |x| <= max) <==> (forall x :: x in cs ==> |x| <= max) && |c| <= max
  {
    assert forall x :: x in cs ==> x in cs + [c];
    assert (cs + [c])[|cs|] == c;
  }

  lemma FewBound(pk: Packer, long: nat, max: nat)
    requires Few(pk, long, max)
    ensures Multiple(|pk.chunks| - long, max + 3) <= 2 * |Written(pk)|
  {
  }

  lemma RetaggedLength(text: string, max: nat)
    ensures |Retagged(Split(text, PARAGRAPH), max)| == |text| + 2
  {
    RetaggedIsInPlace(Split(text, PARAGRAPH), max);
    SplitTerminated(text, PARAGRAPH);
  }

  lemma FewCuts(text: string, max: nat)
    ensures Multiple(|Pack(text, max).chunks| - OverLong(Split(text, PARAGRAPH), max), max + 3) <= 2 * (|text| + 2)
  {
    var ps := Split(text, PARAGRAPH);
    ParagraphsFew(ps, max);
    ParagraphsWritten(ps, max);
    RetaggedLength(text, max);
    FewBound(Pack(text, max), OverLong(ps, max), max);
  }

  /** Greedy packing bounds the number of chunks: all but those cut for an over-long paragraph are,
      pairwise, more than max + 2 bytes. */
  lemma ChunksAreFew(text: string, max: nat, white: char -> bool)
    requires |text| > max
    ensures var k, long := |Chunks(text, max, white)|, OverLong(Split(text, PARAGRAPH), max);
            (k - 1 - long) * (max + 3) <= 2 * (|text| + 2)
  {
    var k, long := |Chunks(text, max, white)|, OverLong(Split(text, PARAGRAPH), max);
    FewCuts(text, max);
    BuilderEndsNonEmpty(Split(text, PARAGRAPH), max);
    MultipleIsProduct(k - 1 - long, max + 3);
  }

  /** A text that fits is its own only chunk, untrimmed; and every text has a chunk. */
  lemma SomeChunk(text: string, max: nat, white: char -> bool)
    ensures |text| <= max ==> Chunks(text, max, white) == [text]
    ensures |Chunks(text, max, white)| > 0
  {
    BuilderEndsNonEmpty(Split(text, PARAGRAPH), max);
  }

  /** The documented limit itself is exceeded: a paragraph of max bytes comes out two bytes longer. */
  lemma LimitIsExceeded(max: nat, white: char -> bool) returns (text: string)
    requires max >= 1
    ensures |text| > max && exists c :: c in Chunks(text, max, white) && |c| == max + 2
  {
    var p := seq(max, _ => 'x');
    text := p + PARAGRAPH + "x";
    assert OccursAt(text, PARAGRAPH, max) by { assert text[max..max + 2] == PARAGRAPH; }
    IndexIsFirst(text, PARAGRAPH);
    var i := Index(text, PARAGRAPH);
    assert text[i..i + 2][0] == text[i] && text[i] == '\n';
    assert i == max && text[..i] == p && text[i + 2..] == "x";
    IndexIsFirst("x", PARAGRAPH);
    assert Split("x", PARAGRAPH) == ["x"];
    assert Split(text, PARAGRAPH) == [p] + ["x"] == [p, "x"];
    assert [p, "x"][..1] == [p] && [p][..0] == [];
    var first := AddParagraphs(Packer([], ""), [p], max);
    assert AddParagraphs(Packer([], ""), [p][..0], max) == Packer([], "");
    assert "" + p + PARAGRAPH == p + PARAGRAPH;
    assert first == Packer([], p + PARAGRAPH);
    assert Pack(text, max).chunks == [p + PARAGRAPH];
    assert p + PARAGRAPH in Chunks(text, max, white);
  }

  class MapReduceWorker {
    var maxChunkSize: int

    ghost predicate Valid()
      reads this
    {
      maxChunkSize > 0
    }

    constructor (maxChunkSize: int)
      ensures Valid() && this.maxChunkSize == if maxChunkSize <= 0 then 4000 else maxChunkSize
    {
      this.maxChunkSize := if maxChunkSize <= 0 then 4000 else maxChunkSize;
    }

    method Chunk(text: string, white: char -> bool) returns (chunks: seq<string>)
      requires Valid()
      ensures chunks == Chunks(text, maxChunkSize, white) && |chunks| > 0
      ensures |text| <= maxChunkSize ==> chunks == [text]
    {
      SomeChunk(text, maxChunkSize, white);
      if |text| <= maxChunkSize {
        return [text];
      }
      chunks := [];
      var currentChunk := "";
      var paragraphs := Split(text, PARAGRAPH);
      for i := 0 to |paragraphs|
        invariant Packer(chunks, currentChunk) == AddParagraphs(Packer([], ""), paragraphs[..i], maxChunkSize)
      {
        var p := paragraphs[i];
        ghost var start := Packer(chunks, currentChunk);
        assert paragraphs[..i + 1][..i] == paragraphs[..i];
        if |currentChunk| + |p| > maxChunkSize && |currentChunk| > 0 {
          chunks := chunks + [currentChunk];
          currentChunk := "";
        }
        ghost var flushed := Packer(chunks, currentChunk);
        if |p| > maxChunkSize {
          var sentences := Split(p, SENTENCE);
          for j := 0 to |sentences|
            invariant Packer(chunks, currentChunk) == AddSentences(flushed, sentences[..j], maxChunkSize)
          {
            var s := sentences[j];
            assert sentences[..j + 1][..j] == sentences[..j];
            if |currentChunk| + |s| > maxChunkSize && |currentChunk| > 0 {
              chunks := chunks + [currentChunk];
              currentChunk := "";
            }
            currentChunk := currentChunk + s + SENTENCE;
          }
          assert sentences[..|sentences|] == sentences;
        } else {
          currentChunk := currentChunk + p + PARAGRAPH;
        }
      }
      assert paragraphs[..|paragraphs|] == paragraphs;
      if |currentChunk| > 0 {
        chunks := chunks + [TrimSpace(currentChunk, white)];
      }
    }
  }
}
