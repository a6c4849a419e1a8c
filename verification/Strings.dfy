/** The part of Go's `strings` package the models rely on. A char stands for one byte. */
module Strings {

  /** The text `sub` occurs in s at offset k. */
  predicate OccursAt(s: string, sub: string, k: nat) {
    k + |sub| <= |s| && s[k..k + |sub|] == sub
  }

  lemma OccursInSlice(s: string, sub: string, lo: nat, hi: nat, k: nat)
    requires lo + k + |sub| <= hi <= |s|
    ensures OccursAt(s[lo..hi], sub, k) <==> OccursAt(s, sub, lo + k)
  {
    var a, b := s[lo..hi][k..k + |sub|], s[lo + k..lo + k + |sub|];
    assert |a| == |b| && forall j :: 0 <= j < |a| ==> a[j] == b[j];
  }

  /** Offset of the first occurrence of sep in s, or -1. */
  function Index(s: string, sep: string): (i: int) {
    if OccursAt(s, sep, 0) then 0
    else if s == "" then -1
    else
      var r := Index(s[1..], sep);
      if r < 0 then -1 else r + 1
  }

  lemma OccursInTail(s: string, sub: string, k: nat)
    requires k + 1 + |sub| <= |s|
    ensures OccursAt(s[1..], sub, k) <==> OccursAt(s, sub, k + 1)
  {
    assert s[1..] == s[1..|s|];
    OccursInSlice(s, sub, 1, |s|, k);
  }

  lemma {:induction false} IndexIsFirst(s: string, sep: string)
    ensures var i := Index(s, sep);
            && -1 <= i
            && (i >= 0 ==> OccursAt(s, sep, i))
            && (forall k: nat :: OccursAt(s, sep, k) ==> 0 <= i <= k)
  {
    if !OccursAt(s, sep, 0) && s != "" {
      IndexIsFirst(s[1..], sep);
      var r := Index(s[1..], sep);
      if r >= 0 {
        OccursInTail(s, sep, r);
      }
      forall k: nat | OccursAt(s, sep, k) ensures 0 <= r && r + 1 <= k {
        OccursInTail(s, sep, k - 1);
      }
    }
  }

  predicate Contains(s: string, sub: string) {
    Index(s, sub) >= 0
  }

  lemma ContainsIffOccurs(s: string, sub: string)
    ensures Contains(s, sub) <==> exists k: nat :: OccursAt(s, sub, k)
  {
    IndexIsFirst(s, sub);
  }

  /** The pieces of s between the leftmost, non-overlapping occurrences of sep. */
  function Split(s: string, sep: string): (parts: seq<string>)
    requires sep != ""
    ensures |parts| > 0
    decreases |s|
  {
    IndexIsFirst(s, sep);
    var i := Index(s, sep);
    if i < 0 then [s] else [s[..i]] + Split(s[i + |sep|..], sep)
  }

  function Concat(parts: seq<string>): string {
    if parts == [] then "" else Concat(parts[..|parts| - 1]) + parts[|parts| - 1]
  }

  lemma {:induction false} ConcatAppend(a: seq<string>, b: seq<string>)
    ensures Concat(a + b) == Concat(a) + Concat(b)
  {
    if b == [] {
      assert a + b == a;
    } else {
      assert (a + b)[..|a + b| - 1] == a + b[..|b| - 1];
      ConcatAppend(a, b[..|b| - 1]);
    }
  }

  /** Every piece followed by the separator. */
  function Terminated(parts: seq<string>, sep: string): string {
    if parts == [] then "" else Terminated(parts[..|parts| - 1], sep) + parts[|parts| - 1] + sep
  }

  lemma {:induction false} TerminatedCons(p: string, parts: seq<string>, sep: string)
    ensures Terminated([p] + parts, sep) == p + sep + Terminated(parts, sep)
  {
    if parts != [] {
      assert ([p] + parts)[..|parts|] == [p] + parts[..|parts| - 1];
      TerminatedCons(p, parts[..|parts| - 1], sep);
    } else {
      assert ([p] + parts)[..0] == [];
    }
  }

  lemma SplitAround(s: string, sep: string, i: nat)
    requires OccursAt(s, sep, i)
    ensures s[..i] + sep + (s[i + |sep|..] + sep) == s + sep
  {
    assert s == s[..i] + s[i..i + |sep|] + s[i + |sep|..];
  }

  /** Splitting loses nothing: the pieces, each followed by the separator, spell the text and one more separator. */
  lemma {:induction false} SplitTerminated(s: string, sep: string)
    requires sep != ""
    ensures Terminated(Split(s, sep), sep) == s + sep
    decreases |s|
  {
    IndexIsFirst(s, sep);
    var i := Index(s, sep);
    if i < 0 {
      TerminatedCons(s, [], sep);
      assert [s] + [] == [s];
    } else {
      var rest := s[i + |sep|..];
      SplitTerminated(rest, sep);
      TerminatedCons(s[..i], Split(rest, sep), sep);
      SplitAround(s, sep, i);
    }
  }

  /** No piece contains the separator. */
  lemma {:induction false} SplitParts(s: string, sep: string)
    requires sep != ""
    ensures forall p :: p in Split(s, sep) ==> !Contains(p, sep)
    decreases |s|
  {
    IndexIsFirst(s, sep);
    var i := Index(s, sep);
    if i >= 0 {
      SplitParts(s[i + |sep|..], sep);
      assert s[..i] == s[0..i];
      IndexIsFirst(s[..i], sep);
      var k := Index(s[..i], sep);
      if k >= 0 {
        OccursInSlice(s, sep, 0, i, k);
      }
    }
  }

  /** The first piece ends where the separator first occurs, and the rest is split in the same way. */
  lemma SplitIsLeftmost(s: string, sep: string, i: nat)
    requires sep != ""
    ensures OccursAt(s, sep, i) && (forall k: nat :: OccursAt(s, sep, k) ==> i <= k) ==>
              Split(s, sep) == [s[..i]] + Split(s[i + |sep|..], sep)
    ensures (forall k: nat :: !OccursAt(s, sep, k)) ==> Split(s, sep) == [s]
  {
    IndexIsFirst(s, sep);
  }

  lemma CharOccurs(s: string, c: char, k: nat)
    ensures OccursAt(s, [c], k) <==> k < |s| && s[k] == c
  {
    if k < |s| {
      assert s[k..k + 1] == [s[k]];
    }
  }

  /** Looking for a single character. */
  lemma IndexOfChar(s: string, c: char)
    ensures var i := Index(s, [c]);
            -1 <= i < |s| && if i < 0 then c !in s else s[i] == c && c !in s[..i]
  {
    IndexIsFirst(s, [c]);
    var i := Index(s, [c]);
    if i >= 0 {
      CharOccurs(s, c, i);
    }
    forall k: nat | k < |s| && s[k] == c ensures 0 <= i <= k {
      CharOccurs(s, c, k);
    }
  }

  lemma IndexAfterField(field: string, c: char, rest: string)
    requires c !in field
    ensures Index(field + [c] + rest, [c]) == |field|
  {
    var s := field + [c] + rest;
    IndexOfChar(s, c);
    IndexIsFirst(s, [c]);
    assert s[|field|] == c && OccursAt(s, [c], |field|);
    assert forall k :: 0 <= k < |field| ==> s[k] == field[k];
  }

  /** A field free of the separator's character is split off whole. */
  lemma SplitField(field: string, c: char, rest: string)
    requires c !in field
    ensures Split(field + [c] + rest, [c]) == [field] + Split(rest, [c])
  {
    var s := field + [c] + rest;
    IndexAfterField(field, c, rest);
    assert s[|field| + 1..] == rest && s[..|field|] == field;
  }

  /** Pieces free of the separator's character, each followed by it, are split into just those pieces. */
  lemma {:induction false} SplitOfTerminated(parts: seq<string>, c: char)
    requires forall p :: p in parts ==> c !in p
    ensures Split(Terminated(parts, [c]), [c]) == parts + [""]
  {
    if parts == [] {
      SplitLastField("", c);
    } else {
      var p, rest := parts[0], parts[1..];
      SplitOfTerminated(rest, c);
      TerminatedCons(p, rest, [c]);
      SplitField(p, c, Terminated(rest, [c]));
      assert [p] + rest == parts;
      assert [p] + (rest + [""]) == parts + [""];
    }
  }

  /** Where piece i starts among terminated pieces. */
  function PieceStart(parts: seq<string>, sep: string, i: nat): nat
    requires i <= |parts|
  {
    if i == 0 then 0 else PieceStart(parts, sep, i - 1) + |parts[i - 1]| + |sep|
  }

  lemma {:induction false} PieceStartPrefix(parts: seq<string>, sep: string, n: nat, i: nat)
    requires i <= n <= |parts|
    ensures PieceStart(parts[..n], sep, i) == PieceStart(parts, sep, i)
  {
    if i > 0 {
      PieceStartPrefix(parts, sep, n, i - 1);
    }
  }

  lemma {:induction false} TerminatedLength(parts: seq<string>, sep: string)
    ensures |Terminated(parts, sep)| == PieceStart(parts, sep, |parts|)
  {
    if parts != [] {
      var n := |parts| - 1;
      TerminatedLength(parts[..n], sep);
      PieceStartPrefix(parts, sep, n, n);
    }
  }

  lemma SliceOfPrefix(a: string, b: string, lo: nat, hi: nat)
    requires lo <= hi <= |a|
    ensures (a + b)[lo..hi] == a[lo..hi]
  {
  }

  /** Piece i is found there, with its terminator. */
  lemma {:induction false} PieceAt(parts: seq<string>, sep: string, i: nat)
    requires i < |parts|
    ensures PieceStart(parts, sep, i) <= PieceStart(parts, sep, i + 1) <= |Terminated(parts, sep)|
    ensures Terminated(parts, sep)[PieceStart(parts, sep, i)..PieceStart(parts, sep, i + 1)] == parts[i] + sep
  {
    var n := |parts| - 1;
    var before, last := Terminated(parts[..n], sep), parts[n] + sep;
    TerminatedLength(parts[..n], sep);
    TerminatedLength(parts, sep);
    PieceStartPrefix(parts, sep, n, i);
    assert Terminated(parts, sep) == before + last;
    if i < n {
      PieceAt(parts[..n], sep, i);
      PieceStartPrefix(parts, sep, n, i + 1);
      SliceOfPrefix(before, last, PieceStart(parts, sep, i), PieceStart(parts, sep, i + 1));
    } else {
      assert (before + last)[|before|..] == last;
    }
  }

  lemma SplitLastField(field: string, c: char)
    requires c !in field
    ensures Split(field, [c]) == [field]
  {
    IndexOfChar(field, c);
  }

  // ---- Stretches of characters ----

  /** The end of the longest stretch from i on whose characters satisfy p. */
  function Skip(s: string, i: nat, p: char -> bool): (j: nat)
    requires i <= |s|
    ensures i <= j <= |s| && (forall k :: i <= k < j ==> p(s[k])) && (j < |s| ==> !p(s[j]))
    decreases |s| - i
  {
    if i < |s| && p(s[i]) then Skip(s, i + 1, p) else i
  }

  lemma SkipIs(s: string, i: nat, j: nat, p: char -> bool)
    requires i <= j <= |s| && (forall k :: i <= k < j ==> p(s[k])) && (j < |s| ==> !p(s[j]))
    ensures Skip(s, i, p) == j
  {
  }

  // ---- Trimming, with the notion of white space left open ----

  function TrimLeft(s: string, white: char -> bool): string {
    if s != "" && white(s[0]) then TrimLeft(s[1..], white) else s
  }

  function TrimRight(s: string, white: char -> bool): string {
    if s != "" && white(s[|s| - 1]) then TrimRight(s[..|s| - 1], white) else s
  }

  function TrimSpace(s: string, white: char -> bool): string {
    TrimRight(TrimLeft(s, white), white)
  }

  /** What is trimmed is white, and what is left neither starts nor ends with white space. */
  lemma {:induction false} TrimRightSplits(s: string, white: char -> bool)
    ensures var t := TrimRight(s, white);
            && |t| <= |s| && t == s[..|t|]
            && (forall k :: |t| <= k < |s| ==> white(s[k]))
            && (t != "" ==> !white(t[|t| - 1]))
  {
    if s != "" && white(s[|s| - 1]) {
      TrimRightSplits(s[..|s| - 1], white);
    }
  }

  lemma {:induction false} TrimLeftSplits(s: string, white: char -> bool)
    ensures var t := TrimLeft(s, white);
            && |t| <= |s| && t == s[|s| - |t|..]
            && (forall k :: 0 <= k < |s| - |t| ==> white(s[k]))
            && (t != "" ==> !white(t[0]))
  {
    if s != "" && white(s[0]) {
      TrimLeftSplits(s[1..], white);
      assert forall k :: 1 <= k < |s| - |TrimLeft(s, white)| ==> s[k] == s[1..][k - 1];
    }
  }

  lemma TrimJoin(s: string, u: string, t: string)
    requires |t| <= |u| <= |s| && u == s[|s| - |u|..] && t == u[..|t|]
    ensures s == s[..|s| - |u|] + t + u[|t|..]
  {
    assert s == s[..|s| - |u|] + u && u == t + u[|t|..];
  }

  lemma TrimEnds(s: string, u: string, t: string, lead: string, trail: string, white: char -> bool)
    requires |t| <= |u| <= |s| && u == s[|s| - |u|..] && t == u[..|t|]
    requires lead == s[..|s| - |u|] && trail == u[|t|..]
    requires forall k :: 0 <= k < |s| - |u| ==> white(s[k])
    requires forall k :: |t| <= k < |u| ==> white(u[k])
    ensures forall k :: 0 <= k < |lead| ==> white(lead[k])
    ensures forall k :: 0 <= k < |trail| ==> white(trail[k])
    ensures t != "" ==> t[0] == u[0]
  {
  }

  lemma TrimSpaceSplits(s: string, white: char -> bool) returns (lead: string, trail: string)
    ensures s == lead + TrimSpace(s, white) + trail
    ensures forall k :: 0 <= k < |lead| ==> white(lead[k])
    ensures forall k :: 0 <= k < |trail| ==> white(trail[k])
    ensures var t := TrimSpace(s, white); t != "" ==> !white(t[0]) && !white(t[|t| - 1])
  {
    var u, t := TrimLeft(s, white), TrimSpace(s, white);
    TrimLeftSplits(s, white);
    TrimRightSplits(u, white);
    TrimJoin(s, u, t);
    lead, trail := s[..|s| - |u|], u[|t|..];
    TrimEnds(s, u, t, lead, trail, white);
  }
}
