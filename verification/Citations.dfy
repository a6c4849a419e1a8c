/** The citation pattern: a declarative reading of the regular expression, a scanner that finds its
    matches from left to right, and the verification of a response against a context. */
module Citations {
  import opened Options
  import opened Strings
  import opened Decimal

  predicate IsSpace(c: char) {
    c == ' ' || c == '\t' || c == '\n' || c == '\r' || c == '\U{c}'
  }

  predicate IsNameChar(c: char) {
    'a' <= c <= 'z' || 'A' <= c <= 'Z' || IsSpace(c)
  }

  predicate AllNameChars(s: string) {
    forall i :: 0 <= i < |s| ==> IsNameChar(s[i])
  }

  /** The classes of the pattern by character code: \s, [a-zA-Z\s] and \d. */
  lemma ClassesByCode(c: char)
    ensures IsSpace(c) <==> c as int in {9, 10, 12, 13, 32}
    ensures IsNameChar(c) <==> c as int in {9, 10, 12, 13, 32} || 65 <= c as int <= 90 || 97 <= c as int <= 122
    ensures IsDigit(c) <==> 48 <= c as int <= 57
  {
  }

  /** w reads `[` name, one white space, chapter `:` verse `]`. */
  ghost predicate Reads(w: string, name: string, space: char, chapter: string, verse: string) {
    && w == "[" + name + [space] + chapter + ":" + verse + "]"
    && name != "" && AllNameChars(name) && IsSpace(space)
    && chapter != "" && AllDigits(chapter) && verse != "" && AllDigits(verse)
  }

  /** The language of the pattern. */
  ghost predicate IsCitation(w: string) {
    exists name, space, chapter, verse :: Reads(w, name, space, chapter, verse)
  }

  // ---- The scanner ----

  /** The end of the match that starts at i, if one does. */
  function MatchAt(s: string, i: nat): (end: Option<nat>)
    requires i < |s|
    ensures end.Some? ==> i < end.value <= |s|
  {
    if s[i] != '[' then None
    else
      var n := Skip(s, i + 1, IsNameChar);
      if n < i + 3 || !IsSpace(s[n - 1]) then None
      else
        var d := Skip(s, n, IsDigit);
        if d == n || d == |s| || s[d] != ':' then None
        else
          var v := Skip(s, d + 1, IsDigit);
          if v == d + 1 || v == |s| || s[v] != ']' then None
          else Some(v + 1)
  }

  /** All matches from i on, left to right, each search starting where the last match ended. */
  function FindAll(s: string, i: nat): seq<string>
    requires i <= |s|
    decreases |s| - i
  {
    if i == |s| then []
    else match MatchAt(s, i)
      case None => FindAll(s, i + 1)
      case Some(j) => [s[i..j]] + FindAll(s, j)
  }

  // ---- Scanner and pattern agree ----

  /** Positions of the parts of a citation. */
  lemma ReadsAt(w: string, name: string, space: char, chapter: string, verse: string)
    requires Reads(w, name, space, chapter, verse)
    ensures var n := |name| + 2;
            var d := n + |chapter|;
            && |w| == d + |verse| + 2 && w[0] == '[' && w[d] == ':' && w[|w| - 1] == ']'
            && (forall k :: 1 <= k < n ==> IsNameChar(w[k])) && IsSpace(w[n - 1])
            && (forall k :: n <= k < d || d < k < |w| - 1 ==> IsDigit(w[k]))
  {
    var n := |name| + 2;
    var d := n + |chapter|;
    assert forall k :: 0 <= k < |name| ==> w[k + 1] == name[k];
    assert forall k :: 0 <= k < |chapter| ==> w[n + k] == chapter[k];
    assert forall k :: 0 <= k < |verse| ==> w[d + 1 + k] == verse[k];
    forall k | 1 <= k < n ensures IsNameChar(w[k]) {
      if k <= |name| {
        assert w[k] == name[k - 1];
      }
    }
    forall k | n <= k < d || d < k < |w| - 1 ensures IsDigit(w[k]) {
      if k < d {
        assert w[k] == chapter[k - n];
      } else {
        assert w[k] == verse[k - d - 1];
      }
    }
  }

  lemma SliceChars(s: string, a: nat, b: nat)
    requires a <= b <= |s|
    ensures (forall k :: a <= k < b ==> IsNameChar(s[k])) ==> AllNameChars(s[a..b])
    ensures (forall k :: a <= k < b ==> IsDigit(s[k])) ==> AllDigits(s[a..b])
  {
    assert forall k :: 0 <= k < b - a ==> s[a..b][k] == s[a + k];
  }

  lemma JoinParts(s: string, i: nat, n: nat, d: nat, v: nat)
    requires i + 3 <= n <= d && d + 1 <= v < |s| && s[i] == '[' && s[d] == ':' && s[v] == ']'
    ensures s[i..v + 1] == "[" + s[i + 1..n - 1] + [s[n - 1]] + s[n..d] + ":" + s[d + 1..v] + "]"
  {
    JoinSlices(s, i, i + 1, n - 1);
    JoinSlices(s, i, n - 1, n);
    JoinSlices(s, i, n, d);
    JoinSlices(s, i, d, d + 1);
    JoinSlices(s, i, d + 1, v);
    JoinSlices(s, i, v, v + 1);
  }

  lemma JoinSlices(s: string, a: nat, b: nat, c: nat)
    requires a <= b <= c <= |s|
    ensures s[a..c] == s[a..b] + s[b..c]
    ensures c == b + 1 ==> s[b..c] == [s[b]]
    ensures b == a + 1 ==> s[a..b] == [s[a]]
  {
  }

  lemma MatchReads(s: string, i: nat, j: nat)
    requires i < |s| && MatchAt(s, i) == Some(j)
    ensures IsCitation(s[i..j])
  {
    var n := Skip(s, i + 1, IsNameChar);
    var d := Skip(s, n, IsDigit);
    var v := Skip(s, d + 1, IsDigit);
    JoinParts(s, i, n, d, v);
    SliceChars(s, i + 1, n - 1);
    SliceChars(s, n, d);
    SliceChars(s, d + 1, v);
    assert Reads(s[i..j], s[i + 1..n - 1], s[n - 1], s[n..d], s[d + 1..v]);
  }

  lemma PositionsMatch(s: string, i: nat, n: nat, d: nat, j: nat)
    requires i + 3 <= n < d && d + 2 < j <= |s| && s[i] == '[' && s[d] == ':' && s[j - 1] == ']'
    requires (forall k :: i + 1 <= k < n ==> IsNameChar(s[k])) && IsSpace(s[n - 1])
    requires forall k :: n <= k < d || d < k < j - 1 ==> IsDigit(s[k])
    ensures MatchAt(s, i) == Some(j)
  {
    SkipIs(s, i + 1, n, IsNameChar);
    SkipIs(s, n, d, IsDigit);
    SkipIs(s, d + 1, j - 1, IsDigit);
  }

  lemma ReadsMatch(s: string, i: nat, j: nat, name: string, space: char, chapter: string, verse: string)
    requires i <= j <= |s| && Reads(s[i..j], name, space, chapter, verse)
    ensures MatchAt(s, i) == Some(j)
  {
    var w := s[i..j];
    ReadsAt(w, name, space, chapter, verse);
    var n := i + |name| + 2;
    var d := n + |chapter|;
    assert forall k :: i <= k < j ==> s[k] == w[k - i];
    PositionsMatch(s, i, n, d, j);
  }

  /** A match starting at i and ending at j is exactly a citation at s[i..j]; so at most one starts at i. */
  lemma MatchIsCitation(s: string, i: nat, j: nat)
    requires i < |s| && i <= j <= |s|
    ensures MatchAt(s, i) == Some(j) <==> IsCitation(s[i..j])
  {
    if MatchAt(s, i) == Some(j) {
      MatchReads(s, i, j);
    }
    if IsCitation(s[i..j]) {
      var name, space, chapter, verse :| Reads(s[i..j], name, space, chapter, verse);
      ReadsMatch(s, i, j, name, space, chapter, verse);
    }
  }

  /** A citation has a bracket at either end and none inside. */
  predicate Bracketed(w: string) {
    && |w| >= 2 && w[0] == '[' && w[|w| - 1] == ']'
    && (forall k :: 0 < k < |w| - 1 ==> w[k] != '[' && w[k] != ']')
  }

  lemma CitationIsBracketed(w: string)
    requires IsCitation(w)
    ensures Bracketed(w)
  {
    var name, space, chapter, verse :| Reads(w, name, space, chapter, verse);
    ReadsAt(w, name, space, chapter, verse);
  }

  lemma OccursStart(s: string, w: string, k: nat)
    requires OccursAt(s, w, k) && w != ""
    ensures s[k] == w[0]
  {
    assert s[k..k + |w|][0] == s[k];
  }

  /** No citation starts strictly inside a match. */
  lemma MatchesDoNotOverlap(s: string, i: nat, j: nat, w: string, k: nat)
    requires i < |s| && MatchAt(s, i) == Some(j) && IsCitation(w) && i < k < j
    ensures !OccursAt(s, w, k)
  {
    MatchReads(s, i, j);
    CitationIsBracketed(s[i..j]);
    CitationIsBracketed(w);
    assert s[i..j][k - i] == s[k];
    if OccursAt(s, w, k) {
      OccursStart(s, w, k);
    }
  }

  /** A citation at or after a match is that match or comes after it. */
  lemma OneOfTheMatches(s: string, i: nat, j: nat, w: string, m: nat)
    requires i < |s| && MatchAt(s, i) == Some(j) && IsCitation(w) && i <= m && OccursAt(s, w, m)
    ensures m >= j || w == s[i..j]
  {
    if m == i {
      MatchIsCitation(s, i, i + |w|);
    } else if m < j {
      MatchesDoNotOverlap(s, i, j, w, m);
    }
  }

  lemma CitationIsNotEmpty(s: string, w: string, k: nat)
    requires IsCitation(w) && OccursAt(s, w, k)
    ensures w != "" && k < |s|
  {
    CitationIsBracketed(w);
  }

  /** Matches never overlap, so the scan misses no citation ... */
  lemma {:induction false} FindAllIsComplete(s: string, i: nat, w: string, k: nat)
    requires i <= k && IsCitation(w) && OccursAt(s, w, k)
    ensures w in FindAll(s, i)
    decreases k - i
  {
    CitationIsNotEmpty(s, w, k);
    var end := MatchAt(s, i);
    if end.Some? {
      OneOfTheMatches(s, i, end.value, w, k);
      if k >= end.value {
        FindAllIsComplete(s, end.value, w, k);
      }
    } else if k == i {
      MatchIsCitation(s, i, i + |w|);
    } else {
      FindAllIsComplete(s, i + 1, w, k);
    }
  }

  /** ... and finds nothing else. */
  lemma {:induction false} FindAllIsSound(s: string, i: nat, w: string) returns (k: nat)
    requires i <= |s| && w in FindAll(s, i)
    ensures i <= k && IsCitation(w) && OccursAt(s, w, k)
    decreases |s| - i
  {
    var end := MatchAt(s, i);
    if end.Some? && w == s[i..end.value] {
      k := i;
      MatchReads(s, i, end.value);
    } else {
      k := FindAllIsSound(s, if end.Some? then end.value else i + 1, w);
    }
  }

  // ---- Verification of a response ----

  datatype Verdict = Verified | NoCitation | Hallucinated(citation: string)

  function CheckAll(matches: seq<string>, context: string): Verdict {
    if matches == [] then Verified
    else if !Contains(context, matches[0]) then Hallucinated(matches[0])
    else CheckAll(matches[1..], context)
  }

  function Verify(generatedText: string, providedContext: string): Verdict {
    var matches := FindAll(generatedText, 0);
    if matches == [] then NoCitation else CheckAll(matches, providedContext)
  }

  /** The first match missing from the context. */
  ghost predicate FirstMissing(matches: seq<string>, context: string, j: nat) {
    && j < |matches| && !Contains(context, matches[j])
    && forall i :: 0 <= i < j ==> Contains(context, matches[i])
  }

  lemma {:induction false} CheckAllMeans(matches: seq<string>, context: string) returns (j: nat)
    ensures CheckAll(matches, context) == Verified <==> forall w :: w in matches ==> Contains(context, w)
    ensures CheckAll(matches, context) != NoCitation
    ensures CheckAll(matches, context).Hallucinated? ==>
              FirstMissing(matches, context, j) && matches[j] == CheckAll(matches, context).citation
  {
    j := 0;
    if matches != [] && Contains(context, matches[0]) {
      var i := CheckAllMeans(matches[1..], context);
      j := i + 1;
      assert forall w :: w in matches <==> w == matches[0] || w in matches[1..];
      assert forall i :: 1 <= i < |matches| ==> matches[i] == matches[1..][i - 1];
    }
  }

  /** Every citation occurring from i on and before k is among those found. */
  ghost predicate Covers(s: string, i: nat, k: nat, found: seq<string>) {
    forall w, m: nat :: i <= m < k && IsCitation(w) && OccursAt(s, w, m) ==> w in found
  }

  /** Match j of `all` is at k, and everything that occurs before it is an earlier match. */
  ghost predicate MatchIsAt(s: string, i: nat, all: seq<string>, j: nat, k: nat) {
    j < |all| && i <= k && OccursAt(s, all[j], k) && IsCitation(all[j]) && Covers(s, i, k, all[..j])
  }

  lemma NoMatchHere(s: string, i: nat, all: seq<string>, j: nat, k: nat)
    requires i < |s| && MatchAt(s, i) == None && MatchIsAt(s, i + 1, all, j, k)
    ensures MatchIsAt(s, i, all, j, k)
  {
    forall w | IsCitation(w) && OccursAt(s, w, i) ensures false {
      MatchIsCitation(s, i, i + |w|);
    }
  }

  lemma FirstMatch(s: string, i: nat, end: nat, rest: seq<string>)
    requires i < |s| && MatchAt(s, i) == Some(end)
    ensures MatchIsAt(s, i, [s[i..end]] + rest, 0, i)
  {
    MatchReads(s, i, end);
  }

  lemma LaterMatch(s: string, i: nat, end: nat, rest: seq<string>, j: nat, k: nat)
    requires i < |s| && MatchAt(s, i) == Some(end) && MatchIsAt(s, end, rest, j, k)
    ensures MatchIsAt(s, i, [s[i..end]] + rest, j + 1, k)
  {
    var all := [s[i..end]] + rest;
    assert all[..j + 1] == [s[i..end]] + rest[..j];
    forall w, m: nat | i <= m < k && IsCitation(w) && OccursAt(s, w, m) ensures w in all[..j + 1] {
      OneOfTheMatches(s, i, end, w, m);
    }
  }

  lemma OrderAfterNone(s: string, i: nat, j: nat, k: nat)
    requires i < |s| && MatchAt(s, i) == None && MatchIsAt(s, i + 1, FindAll(s, i + 1), j, k)
    ensures MatchIsAt(s, i, FindAll(s, i), j, k)
  {
    NoMatchHere(s, i, FindAll(s, i + 1), j, k);
  }

  lemma OrderAfterMatch(s: string, i: nat, end: nat, j: nat, k: nat)
    requires i < |s| && MatchAt(s, i) == Some(end) && MatchIsAt(s, end, FindAll(s, end), j, k)
    ensures MatchIsAt(s, i, FindAll(s, i), j + 1, k)
  {
    LaterMatch(s, i, end, FindAll(s, end), j, k);
  }

  lemma OrderAtMatch(s: string, i: nat, end: nat)
    requires i < |s| && MatchAt(s, i) == Some(end)
    ensures MatchIsAt(s, i, FindAll(s, i), 0, i)
  {
    FirstMatch(s, i, end, FindAll(s, end));
  }

  lemma FindAllLength(s: string, i: nat)
    requires i < |s|
    ensures MatchAt(s, i) == None ==> |FindAll(s, i)| == |FindAll(s, i + 1)|
    ensures MatchAt(s, i).Some? ==> |FindAll(s, i)| == |FindAll(s, MatchAt(s, i).value)| + 1
  {
  }

  /** Matches are found in the order in which they occur. */
  lemma {:induction false} FindAllInOrder(s: string, i: nat, j: nat) returns (k: nat)
    requires i <= |s| && j < |FindAll(s, i)|
    ensures MatchIsAt(s, i, FindAll(s, i), j, k)
    decreases |s| - i
  {
    FindAllLength(s, i);
    var end := MatchAt(s, i);
    if end == None {
      k := FindAllInOrder(s, i + 1, j);
      OrderAfterNone(s, i, j, k);
    } else if j == 0 {
      k := i;
      OrderAtMatch(s, i, end.value);
    } else {
      k := FindAllInOrder(s, end.value, j - 1);
      OrderAfterMatch(s, i, end.value, j - 1, k);
    }
  }

  /** A citation occurs in the text. */
  ghost predicate Cites(text: string, w: string) {
    IsCitation(w) && exists k: nat :: OccursAt(text, w, k)
  }

  /** The citation occurs in the text and not in the context, and it is the first such one. */
  ghost predicate FirstStray(text: string, context: string, w: string) {
    && IsCitation(w) && !Contains(context, w)
    && exists k: nat :: OccursAt(text, w, k)
                        && forall v, m: nat :: m < k && IsCitation(v) && OccursAt(text, v, m) ==> Contains(context, v)
  }

  lemma FirstMissingIsStray(text: string, context: string, matches: seq<string>, j: nat, k: nat)
    requires FirstMissing(matches, context, j) && MatchIsAt(text, 0, matches, j, k)
    ensures FirstStray(text, context, matches[j])
  {
    forall v, m: nat | m < k && IsCitation(v) && OccursAt(text, v, m) ensures Contains(context, v) {
      assert v in matches[..j];
    }
  }

  /** What each verdict says about the citations of the text; the first hallucinated one is named. */
  lemma VerdictMeans(text: string, context: string)
    ensures var r := Verify(text, context);
            && (r == NoCitation <==> forall w :: !Cites(text, w))
            && (r == Verified <==> (exists w :: Cites(text, w)) && forall w :: Cites(text, w) ==> Contains(context, w))
            && (r.Hallucinated? ==> FirstStray(text, context, r.citation))
  {
    var matches := FindAll(text, 0);
    forall w ensures w in matches <==> Cites(text, w) {
      if w in matches {
        var k := FindAllIsSound(text, 0, w);
      }
      if Cites(text, w) {
        var k: nat :| OccursAt(text, w, k);
        FindAllIsComplete(text, 0, w, k);
      }
    }
    var j := CheckAllMeans(matches, context);
    if matches != [] {
      assert matches[0] in matches;
    }
    if Verify(text, context).Hallucinated? {
      var k := FindAllInOrder(text, 0, j);
      FirstMissingIsStray(text, context, matches, j, k);
    }
  }
}
