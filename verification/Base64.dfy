/** Unpadded standard base64 (sections 3.2 and 4 of RFC 4648) as Go's RawStdEncoding reads and writes it:
    line breaks in the input are skipped and unused trailing bits are ignored. */
module Base64 {
  import opened Options
  import opened Positional

  type Byte = x: int | 0 <= x < 256

  type Sextet = x: int | 0 <= x < 64

  function EncodeChar(v: Sextet): char {
    if v < 26 then ('A' as int + v) as char
    else if v < 52 then ('a' as int + v - 26) as char
    else if v < 62 then ('0' as int + v - 52) as char
    else if v == 62 then '+' else '/'
  }

  function DecodeChar(c: char): Option<Sextet> {
    if 'A' <= c <= 'Z' then Some(c as int - 'A' as int)
    else if 'a' <= c <= 'z' then Some(c as int - 'a' as int + 26)
    else if '0' <= c <= '9' then Some(c as int - '0' as int + 52)
    else if c == '+' then Some(62) else if c == '/' then Some(63) else None
  }

  lemma DecodeEncodeChar(v: Sextet)
    ensures DecodeChar(EncodeChar(v)) == Some(v) && EncodeChar(v) != '\n' && EncodeChar(v) != '\r'
  {
  }

  /** Six bits at a time, zero bits filling up the last group. */
  function ToSextets(b: seq<Byte>): seq<Sextet> {
    if |b| == 0 then []
    else if |b| == 1 then [b[0] / 4, b[0] % 4 * 16]
    else if |b| == 2 then [b[0] / 4, b[0] % 4 * 16 + b[1] / 16, b[1] % 16 * 4]
    else [b[0] / 4, b[0] % 4 * 16 + b[1] / 16, b[1] % 16 * 4 + b[2] / 64, b[2] % 64] + ToSextets(b[3..])
  }

  /** Eight bits at a time; one sextet left over is corrupt input. */
  function FromSextets(d: seq<Sextet>): Option<seq<Byte>> {
    if |d| == 0 then Some([])
    else if |d| == 1 then None
    else
      var b0: Byte := d[0] as int * 4 + d[1] as int / 16;
      if |d| == 2 then Some([b0])
      else
        var b1: Byte := d[1] as int % 16 * 16 + d[2] as int / 4;
        if |d| == 3 then Some([b0, b1])
        else
          match FromSextets(d[4..])
          case None => None
          case Some(rest) =>
            var b2: Byte := d[2] as int % 4 * 64 + d[3] as int;
            Some([b0, b1, b2] + rest)
  }

  function EncodeChars(d: seq<Sextet>): string {
    if d == [] then "" else [EncodeChar(d[0])] + EncodeChars(d[1..])
  }

  function DecodeChars(s: string): Option<seq<Sextet>> {
    if s == "" then Some([])
    else if s[0] == '\n' || s[0] == '\r' then DecodeChars(s[1..])
    else
      match DecodeChar(s[0])
      case None => None
      case Some(v) =>
        match DecodeChars(s[1..])
        case None => None
        case Some(rest) => Some([v] + rest)
  }

  function EncodeToString(b: seq<Byte>): string {
    EncodeChars(ToSextets(b))
  }

  function DecodeString(s: string): Option<seq<Byte>> {
    match DecodeChars(s)
    case None => None
    case Some(d) => FromSextets(d)
  }

  lemma {:induction false} CharsRoundTrip(d: seq<Sextet>)
    ensures DecodeChars(EncodeChars(d)) == Some(d)
  {
    if d != [] {
      CharsRoundTrip(d[1..]);
      DecodeEncodeChar(d[0]);
      assert EncodeChars(d)[1..] == EncodeChars(d[1..]);
      assert [d[0]] + d[1..] == d;
    }
  }

  /** Three bytes come back from their four sextets. */
  lemma ThreeBytes(b0: Byte, b1: Byte, b2: Byte)
    ensures b0 as int / 4 * 4 + (b0 as int % 4 * 16 + b1 as int / 16) / 16 == b0
    ensures (b0 as int % 4 * 16 + b1 as int / 16) % 16 * 16 + (b1 as int % 16 * 4 + b2 as int / 64) / 4 == b1
    ensures (b1 as int % 16 * 4 + b2 as int / 64) % 4 * 64 + b2 as int % 64 == b2
  {
  }

  lemma {:induction false} SextetsRoundTrip(b: seq<Byte>)
    ensures FromSextets(ToSextets(b)) == Some(b)
  {
    if |b| >= 3 {
      SextetsRoundTrip(b[3..]);
      ThreeBytes(b[0], b[1], b[2]);
      assert ToSextets(b)[4..] == ToSextets(b[3..]);
      assert b == [b[0], b[1], b[2]] + b[3..];
    } else if |b| == 2 {
      ThreeBytes(b[0], b[1], 0);
      assert b == [b[0], b[1]];
    } else if |b| == 1 {
      ThreeBytes(b[0], 0, 0);
      assert b == [b[0]];
    }
  }

  /** Decoding undoes encoding, for every byte string. */
  lemma RoundTrip(b: seq<Byte>)
    ensures DecodeString(EncodeToString(b)) == Some(b)
  {
    CharsRoundTrip(ToSextets(b));
    SextetsRoundTrip(b);
  }

  /** Encoded text is made of the sixty-four letters. */
  lemma {:induction false} EncodedChars(d: seq<Sextet>)
    ensures forall k :: 0 <= k < |EncodeChars(d)| ==> DecodeChar(EncodeChars(d)[k]).Some?
  {
    if d != [] {
      EncodedChars(d[1..]);
      DecodeEncodeChar(d[0]);
    }
  }

  // ---- The letters ----

  /** Table 1 of RFC 4648. */
  const ALPHABET := "ABCDEFGHIJKLMNOPQRSTUVWXYZ" + "abcdefghijklmnopqrstuvwxyz" + "0123456789+/"

  lemma CapitalLetter(v: nat)
    requires v < 26
    ensures ALPHABET[v] == ('A' as int + v) as char
  {
    assert ALPHABET[v] == "ABCDEFGHIJKLMNOPQRSTUVWXYZ"[v];
  }

  lemma SmallLetter(v: nat)
    requires 26 <= v < 52
    ensures ALPHABET[v] == ('a' as int + v - 26) as char
  {
    assert ALPHABET[v] == "abcdefghijklmnopqrstuvwxyz"[v - 26];
  }

  lemma DigitLetter(v: nat)
    requires 52 <= v < 64
    ensures ALPHABET[v] == if v < 62 then ('0' as int + v - 52) as char else if v == 62 then '+' else '/'
  {
    assert ALPHABET[v] == "0123456789+/"[v - 52];
  }

  lemma LetterOf(v: Sextet)
    ensures EncodeChar(v) == ALPHABET[v]
  {
    if v < 26 {
      CapitalLetter(v);
    } else if v < 52 {
      SmallLetter(v);
    } else {
      DigitLetter(v);
    }
  }

  lemma DecodeCharIff(c: char, v: Sextet)
    ensures DecodeChar(c) == Some(v) <==> c == EncodeChar(v)
  {
    DecodeEncodeChar(v);
  }

  lemma DecodeCharReads(c: char, v: Sextet)
    ensures DecodeChar(c) == Some(v) <==> c == ALPHABET[v]
  {
    DecodeCharIff(c, v);
    LetterOf(v);
  }

  /** The text without its line breaks. */
  function Unbroken(s: string): string {
    if s == "" then ""
    else if s[0] == '\n' || s[0] == '\r' then Unbroken(s[1..])
    else [s[0]] + Unbroken(s[1..])
  }

  /** But for line breaks the text is the letters of these sextets. */
  ghost predicate Letters(s: string, d: seq<Sextet>) {
    |Unbroken(s)| == |d| && forall k :: 0 <= k < |d| ==> Unbroken(s)[k] == ALPHABET[d[k]]
  }

  lemma LettersTail(s: string, d: seq<Sextet>)
    requires s != "" && s[0] != '\n' && s[0] != '\r'
    ensures Letters(s, d) <==> d != [] && s[0] == ALPHABET[d[0]] && Letters(s[1..], d[1..])
  {
    var t, u := Unbroken(s), Unbroken(s[1..]);
    assert t == [s[0]] + u;
    if d != [] && Letters(s[1..], d[1..]) {
      assert forall k :: 1 <= k < |d| ==> t[k] == u[k - 1] == ALPHABET[d[1..][k - 1]];
    }
    if Letters(s, d) {
      assert forall k :: 0 <= k < |u| ==> u[k] == t[k + 1] == ALPHABET[d[k + 1]];
    }
  }

  lemma {:induction false} DecodeCharsReads(s: string, d: seq<Sextet>)
    ensures DecodeChars(s) == Some(d) <==> Letters(s, d)
  {
    if s != "" {
      if s[0] == '\n' || s[0] == '\r' {
        DecodeCharsReads(s[1..], d);
      } else {
        LettersTail(s, d);
        if d != [] {
          DecodeCharsReads(s[1..], d[1..]);
          DecodeCharReads(s[0], d[0]);
          assert [d[0]] + d[1..] == d;
        }
      }
    }
  }

  // ---- The bits ----

  /** The number of k sextets without the unused bits of the last one. */
  function Shortened(x: nat, k: nat): nat {
    if k % 4 == 2 then x / 16 else if k % 4 == 3 then x / 4 else x
  }

  /** The sextets spell the bytes, as one number with the first digit the most significant, and possibly unused bits;
      one sextet in excess of groups of four spells nothing. */
  ghost predicate Spells(d: seq<Sextet>, b: seq<Byte>) {
    |d| % 4 != 1 && |b| == |d| * 3 / 4 && Number(b, 256) == Shortened(Number(d, 64), |d|)
  }

  lemma TwoSextets(d0: Sextet, d1: Sextet)
    ensures Number([d0, d1], 64) == d0 as int * 64 + d1 as int
  {
    NumberOne(d0, 64);
    NumberAppend([d0], d1, 64);
    assert [d0] + [d1] == [d0, d1];
  }

  lemma ThreeSextets(d0: Sextet, d1: Sextet, d2: Sextet)
    ensures Number([d0, d1, d2], 64) == d0 as int * 0x1000 + d1 as int * 64 + d2 as int
  {
    TwoSextets(d0, d1);
    NumberAppend([d0, d1], d2, 64);
    assert [d0, d1] + [d2] == [d0, d1, d2];
  }

  lemma FourSextets(d0: Sextet, d1: Sextet, d2: Sextet, d3: Sextet)
    ensures Number([d0, d1, d2, d3], 64) == d0 as int * 0x4_0000 + d1 as int * 0x1000 + d2 as int * 64 + d3 as int
  {
    ThreeSextets(d0, d1, d2);
    NumberAppend([d0, d1, d2], d3, 64);
    assert [d0, d1, d2] + [d3] == [d0, d1, d2, d3];
  }

  lemma TwoBytes(b0: Byte, b1: Byte)
    ensures Number([b0, b1], 256) == b0 as int * 256 + b1 as int
  {
    NumberOne(b0, 256);
    NumberAppend([b0], b1, 256);
    assert [b0] + [b1] == [b0, b1];
  }

  lemma ThreeBytesNumber(b0: Byte, b1: Byte, b2: Byte)
    ensures Number([b0, b1, b2], 256) == b0 as int * 0x1_0000 + b1 as int * 256 + b2 as int
  {
    TwoBytes(b0, b1);
    NumberAppend([b0, b1], b2, 256);
    assert [b0, b1] + [b2] == [b0, b1, b2];
  }

  lemma FourSteps(k: nat)
    requires k >= 4
    ensures Power(64, k) == Power(64, k - 4) * 0x100_0000
  {
    assert Power(64, k - 2) == Power(64, k - 3) * 64;
    assert Power(64, k) == Power(64, k - 1) * 64;
  }

  lemma ThreeSteps(n: nat)
    requires n >= 3
    ensures Power(256, n) == Power(256, n - 3) * 0x100_0000
  {
    assert Power(256, n - 1) == Power(256, n - 2) * 256;
  }

  /** Six bits at a time or eight, the powers differ by the unused bits. */
  predicate Aligned(k: nat, p: nat, q: nat) {
    p == if k % 4 == 2 then q * 16 else if k % 4 == 3 then q * 4 else q
  }

  lemma AlignedStep(k: nat, p: nat, q: nat)
    requires k >= 4 && Aligned(k - 4, p, q)
    ensures Aligned(k, p * 0x100_0000, q * 0x100_0000)
  {
  }

  lemma FewAligned(k: nat)
    requires k < 4 && k != 1
    ensures Aligned(k, Power(64, k), Power(256, k * 3 / 4))
  {
    assert Power(64, 1) == 64 && Power(64, 2) == 0x1000 && Power(256, 1) == 256;
  }

  lemma {:induction false} PowersAlign(k: nat, n: nat)
    requires k % 4 != 1 && n == k * 3 / 4
    ensures Aligned(k, Power(64, k), Power(256, n))
  {
    if k >= 4 {
      PowersAlign(k - 4, n - 3);
      AlignedStep(k, Power(64, k - 4), Power(256, n - 3));
      FourSteps(k);
      ThreeSteps(n);
    } else {
      FewAligned(k);
    }
  }

  lemma ShortenedSum(g: nat, p: nat, q: nat, x: nat, k: nat, n: nat, m: nat)
    requires k % 4 != 1 && Aligned(k, p, q)
    requires n == g * p + x && m == g * q + Shortened(x, k)
    ensures m == Shortened(n, 4 + k)
  {
    if k % 4 == 2 {
      assert g * (q * 16) == (g * q) * 16;
    } else if k % 4 == 3 {
      assert g * (q * 4) == (g * q) * 4;
    }
  }

  /** The number of a group of four sextets, or three bytes, and what follows. */
  lemma GroupNumber(group: seq<int>, rest: seq<int>, base: nat, g: nat, p: nat) returns (n: nat)
    requires base > 0 && AllBelow(group, base) && AllBelow(rest, base)
    requires g == Number(group, base) && p == Power(base, |rest|)
    ensures AllBelow(group + rest, base) && n == Number(group + rest, base) == g * p + Number(rest, base)
  {
    NumberConcat(group, rest, base);
    n := Number(group + rest, base);
  }

  lemma FullGroup(d0: Sextet, d1: Sextet, d2: Sextet, d3: Sextet, b0: Byte, b1: Byte, b2: Byte)
    requires b0 as int == d0 as int * 4 + d1 as int / 16 && b1 as int == d1 as int % 16 * 16 + d2 as int / 4
    requires b2 as int == d2 as int % 4 * 64 + d3 as int
    ensures Number([d0, d1, d2, d3], 64) == Number([b0, b1, b2], 256)
  {
    FourSextets(d0, d1, d2, d3);
    ThreeBytesNumber(b0, b1, b2);
  }

  lemma LongerByAGroup(k: nat, n: nat)
    requires k % 4 != 1 && n == k * 3 / 4
    ensures (4 + k) % 4 != 1 && 3 + n == (4 + k) * 3 / 4
  {
  }

  lemma GroupThenRest(four: seq<Sextet>, rest: seq<Sextet>, three: seq<Byte>, bytes: seq<Byte>)
    requires |four| == 4 && |three| == 3 && Number(four, 64) == Number(three, 256) && Spells(rest, bytes)
    ensures Spells(four + rest, three + bytes)
  {
    var g, p, q := Number(three, 256), Power(64, |rest|), Power(256, |bytes|);
    var n := GroupNumber(four, rest, 64, g, p);
    var m := GroupNumber(three, bytes, 256, g, q);
    PowersAlign(|rest|, |bytes|);
    ShortenedSum(g, p, q, Number(rest, 64), |rest|, n, m);
    LongerByAGroup(|rest|, |bytes|);
  }

  lemma FewSextets(d: seq<Sextet>, b: seq<Byte>)
    requires |d| < 4 && FromSextets(d) == Some(b)
    ensures Spells(d, b)
  {
    if |d| == 2 {
      TwoSextets(d[0], d[1]);
      NumberOne(b[0], 256);
      assert d == [d[0], d[1]] && b == [b[0]];
    } else if |d| == 3 {
      ThreeSextets(d[0], d[1], d[2]);
      TwoBytes(b[0], b[1]);
      assert d == [d[0], d[1], d[2]] && b == [b[0], b[1]];
    }
  }

  lemma {:induction false} FromSextetsSpells(d: seq<Sextet>)
    ensures FromSextets(d).Some? <==> |d| % 4 != 1
    ensures FromSextets(d).Some? ==> Spells(d, FromSextets(d).value)
  {
    if |d| >= 4 {
      FromSextetsSpells(d[4..]);
      if FromSextets(d).Some? {
        var rest, b := FromSextets(d[4..]).value, FromSextets(d).value;
        FullGroup(d[0], d[1], d[2], d[3], b[0], b[1], b[2]);
        GroupThenRest([d[0], d[1], d[2], d[3]], d[4..], [b[0], b[1], b[2]], rest);
        assert [d[0], d[1], d[2], d[3]] + d[4..] == d;
      }
    } else if FromSextets(d).Some? {
      FewSextets(d, FromSextets(d).value);
    }
  }

  lemma SpellsOnce(d: seq<Sextet>, b: seq<Byte>, c: seq<Byte>)
    requires Spells(d, b) && Spells(d, c)
    ensures b == c
  {
    NumberInjective(b, c, 256);
  }

  /** But for line breaks the text is letters that spell the bytes. */
  ghost predicate ReadsAs(s: string, b: seq<Byte>) {
    exists d :: Letters(s, d) && Spells(d, b)
  }

  /** Decoding succeeds exactly with the bytes that the letters spell. */
  lemma DecodeReads(s: string, b: seq<Byte>)
    ensures DecodeString(s) == Some(b) <==> ReadsAs(s, b)
  {
    if DecodeString(s) == Some(b) {
      var d := DecodeChars(s).value;
      DecodeCharsReads(s, d);
      FromSextetsSpells(d);
    }
    if ReadsAs(s, b) {
      var d :| Letters(s, d) && Spells(d, b);
      DecodeCharsReads(s, d);
      FromSextetsSpells(d);
      SpellsOnce(d, b, FromSextets(d).value);
    }
  }

  lemma {:induction false} NoBreaks(s: string)
    requires '\n' !in s && '\r' !in s
    ensures Unbroken(s) == s
  {
    if s != "" {
      NoBreaks(s[1..]);
      assert [s[0]] + s[1..] == s;
    }
  }

  /** The unused bits of the last sextet are zero. */
  predicate ZeroFilled(d: seq<Sextet>) {
    && (|d| % 4 == 2 ==> d[|d| - 1] as int % 16 == 0)
    && (|d| % 4 == 3 ==> d[|d| - 1] as int % 4 == 0)
  }

  lemma ZeroFilledAfter(four: seq<Sextet>, rest: seq<Sextet>)
    requires |four| == 4 && ZeroFilled(rest)
    ensures ZeroFilled(four + rest)
  {
  }

  lemma {:induction false} SextetsZeroFilled(b: seq<Byte>)
    ensures ZeroFilled(ToSextets(b)) && |ToSextets(b)| == (4 * |b| + 2) / 3
  {
    if |b| >= 3 {
      SextetsZeroFilled(b[3..]);
      ZeroFilledAfter(ToSextets(b)[..4], ToSextets(b[3..]));
      assert ToSextets(b) == ToSextets(b)[..4] + ToSextets(b[3..]);
    }
  }

  /** What is printed is letters only, and they spell the bytes, with zeros for the bits that are left over. */
  lemma EncodingReadsAs(b: seq<Byte>)
    ensures var s := EncodeToString(b);
            && Unbroken(s) == s && |s| == (4 * |b| + 2) / 3
            && exists d :: Letters(s, d) && Spells(d, b) && ZeroFilled(d)
  {
    SextetsZeroFilled(b);
    DecodeCharsReads(EncodeToString(b), ToSextets(b));
    CharsRoundTrip(ToSextets(b));
    SextetsRoundTrip(b);
    FromSextetsSpells(ToSextets(b));
    EncodedChars(ToSextets(b));
    NoBreaks(EncodeToString(b));
  }
}
