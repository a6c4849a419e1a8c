/** One-time codes: dynamic truncation of section 5.3 of RFC 4226 and the time steps of section 4.2 of
    RFC 6238. The keyed hash is a parameter. */
module Totp {
  import opened Decimal
  import opened Options
  import opened Positional

  type Mac = m: seq<bv8> | |m| == 20 witness seq(20, _ => 0)

  type Byte = x: int | 0 <= x < 256

  /** HMAC-SHA1 of a message under the account's key. */
  type KeyedHash = seq<Byte> -> Mac

  const STEP: nat := 30

  // ---- Dynamic truncation ----

  /** The last half-byte, as an index. */
  function Offset(sum: Mac): (o: nat)
    ensures o == sum[19] as int % 16
  {
    LowHalf(sum[19]);
    (sum[19] & 0x0f) as nat
  }

  lemma LowHalf(b: bv8)
    ensures (b & 0x0f) as int == b as int % 16
  {
  }

  /** Four bytes masked, shifted and joined. */
  function Join(b0: bv8, b1: bv8, b2: bv8, b3: bv8): bv32 {
    ((b0 as bv32 & 0x7f) << 24) | ((b1 as bv32 & 0xff) << 16) | ((b2 as bv32 & 0xff) << 8) | (b3 as bv32 & 0xff)
  }

  /** One byte appended at the low end. */
  function Push(h: bv32, b: bv8): bv32 {
    (h << 8) | (b as bv32)
  }

  lemma JoinIsPushed(b0: bv8, b1: bv8, b2: bv8, b3: bv8)
    ensures Join(b0, b1, b2, b3) == Push(Push(Push(b0 as bv32 & 0x7f, b1), b2), b3)
  {
  }

  lemma LowByte(h: bv32, b: bv8)
    requires h & 0xff == 0
    ensures (h | b as bv32) as int == h as int + b as int
  {
  }

  lemma ShiftByte(h: bv32)
    requires h < 0x100_0000
    ensures (h << 8) as int == h as int * 0x100 && (h << 8) & 0xff == 0
  {
  }

  lemma LowSevenBits(b: bv8)
    ensures (b as bv32 & 0x7f) as int == b as int % 128 && (b as bv32 & 0x7f) < 0x80
  {
  }

  lemma PushValue(h: bv32, b: bv8)
    requires h < 0x80_0000
    ensures Push(h, b) as int == h as int * 0x100 + b as int
  {
    ShiftByte(h);
    LowByte(h << 8, b);
  }

  lemma PushSmall(h: bv32, b: bv8)
    ensures h < 0x80 ==> Push(h, b) < 0x8000
    ensures h < 0x8000 ==> Push(h, b) < 0x80_0000
  {
  }

  lemma PushThree(h: bv32, b1: bv8, b2: bv8, b3: bv8, i: int)
    requires h < 0x80 && h as int == i
    ensures Push(Push(Push(h, b1), b2), b3) as int
            == i * 0x100_0000 + b1 as int * 0x1_0000 + b2 as int * 0x100 + b3 as int
  {
    PushSmall(h, b1);
    PushSmall(Push(h, b1), b2);
    PushValue(h, b1);
    PushValue(Push(h, b1), b2);
    PushValue(Push(Push(h, b1), b2), b3);
  }

  /** The masked shift-and-or is the big-endian number of 31 bits that the standard asks for. */
  lemma JoinIsBigEndian(b0: bv8, b1: bv8, b2: bv8, b3: bv8)
    ensures Join(b0, b1, b2, b3) as int == Word(b0 as int, b1 as int, b2 as int, b3 as int)
  {
    JoinIsPushed(b0, b1, b2, b3);
    LowSevenBits(b0);
    PushThree(b0 as bv32 & 0x7f, b1, b2, b3, b0 as int % 128);
  }

  // ---- Codes ----

  /** The number of the standard, from the bytes of the MAC: 31 bits, big-endian, at the offset that the last
      half-byte gives, modulo a million. */
  function Truncated(sum: Mac): nat {
    var o := sum[19] as int % 16;
    Word(sum[o] as int, sum[o + 1] as int, sum[o + 2] as int, sum[o + 3] as int) % 1_000_000
  }

  function Word(b0: nat, b1: nat, b2: nat, b3: nat): nat {
    (b0 % 128) * 0x100_0000 + b1 * 0x1_0000 + b2 * 0x100 + b3
  }

  /** Six digits spelling that number. */
  predicate IsCodeOf(sum: Mac, code: string) {
    |code| == 6 && AllDigits(code) && Value(code) == Truncated(sum)
  }

  lemma {:induction false} ShowLength(n: nat, k: nat)
    requires k >= 1 && n < Power(10, k)
    ensures |Show(n)| <= k
  {
    if n >= 10 {
      ShowLength(n / 10, k - 1);
    }
  }

  lemma {:induction false} PaddingValue(k: nat, s: string)
    requires AllDigits(s)
    ensures AllDigits(seq(k, _ => '0') + s) && Value(seq(k, _ => '0') + s) == Value(s)
    decreases |s|, k
  {
    var t := seq(k, _ => '0') + s;
    if s != "" {
      assert t[..|t| - 1] == seq(k, _ => '0') + s[..|s| - 1];
      PaddingValue(k, s[..|s| - 1]);
    } else if k > 0 {
      assert t[..|t| - 1] == seq(k - 1, _ => '0') + "";
      PaddingValue(k - 1, "");
    }
  }

  lemma Million()
    ensures Power(10, 6) == 1_000_000
  {
    assert Power(10, 3) == 1000;
    assert Power(10, 5) == Power(10, 4) * 10;
  }

  /** %06d */
  function Padded(n: nat): string {
    (if |Show(n)| < 6 then seq(6 - |Show(n)|, _ => '0') else "") + Show(n)
  }

  lemma SixDigits(n: nat)
    requires n < 1_000_000
    ensures |Padded(n)| == 6 && AllDigits(Padded(n)) && Value(Padded(n)) == n
  {
    Million();
    ShowLength(n, 6);
    ShowValue(n);
    PaddingValue(6 - |Show(n)|, Show(n));
    assert "" + Show(n) == Show(n);
  }

  method JoinBytes(b0: bv8, b1: bv8, b2: bv8, b3: bv8) returns (binCode: nat)
    ensures binCode == Word(b0 as int, b1 as int, b2 as int, b3 as int)
  {
    JoinIsBigEndian(b0, b1, b2, b3);
    binCode := Join(b0, b1, b2, b3) as int;
  }

  /** The code printed for a MAC is the six-digit code of the standard. */
  method Truncate(sum: Mac) returns (code: string)
    ensures IsCodeOf(sum, code)
  {
    var offset := Offset(sum);
    var binCode := JoinBytes(sum[offset], sum[offset + 1], sum[offset + 2], sum[offset + 3]);
    SixDigits(binCode % 1_000_000);
    code := Padded(binCode % 1_000_000);
  }

  /** As many digits with the same value are the same digits. */
  lemma {:induction false} SameDigits(a: string, b: string)
    requires |a| == |b| && AllDigits(a) && AllDigits(b) && Value(a) == Value(b)
    ensures a == b
  {
    if a != "" {
      var n := |a| - 1;
      SameDigits(a[..n], b[..n]);
      assert a == a[..n] + [a[n]] && b == b[..n] + [b[n]];
    }
  }

  /** The MAC of the example in section 5.4 of RFC 4226. */
  const EXAMPLE: Mac := [0x1f, 0x86, 0x98, 0x69, 0x0e, 0x02, 0xca, 0x16, 0x61, 0x85,
                         0x50, 0xef, 0x7f, 0x19, 0xda, 0x8e, 0x94, 0x5b, 0x55, 0x5a]

  lemma ExampleTruncated()
    ensures Truncated(EXAMPLE) == 872921
  {
    assert EXAMPLE[19] as int % 16 == 10;
  }

  lemma ExampleValue()
    ensures AllDigits("872921") && Value("872921") == 872921
  {
    assert "872921"[..5] == "87292" && "87292"[..4] == "8729" && "8729"[..3] == "872" && "872"[..2] == "87";
    assert "87"[..1] == "8" && "8"[..0] == "";
    assert Value("872") == 872;
    assert Value("87292") == 87292;
  }

  /** Its code is the one given there, and no other. */
  lemma StandardExample(code: string)
    ensures IsCodeOf(EXAMPLE, code) <==> code == "872921"
  {
    ExampleTruncated();
    ExampleValue();
    if IsCodeOf(EXAMPLE, code) {
      SameDigits(code, "872921");
    }
  }

  // ---- Messages ----

  /** The k low bytes of n, the highest first; with k = 8 what PutUint64 writes. */
  function BigEndian(n: nat, k: nat): (msg: seq<Byte>)
    ensures |msg| == k
  {
    if k == 0 then [] else BigEndian(n / 256, k - 1) + [n % 256]
  }

  lemma {:induction false} BigEndianValue(n: nat, k: nat)
    requires n < Power(256, k)
    ensures Number(BigEndian(n, k), 256) == n
  {
    if k > 0 {
      BigEndianValue(n / 256, k - 1);
      assert BigEndian(n, k)[..k - 1] == BigEndian(n / 256, k - 1);
    }
  }

  /** Eight bytes spelling n modulo two to the sixty-four. */
  predicate IsMessage(msg: seq<Byte>, n: int) {
    |msg| == 8 && Number(msg, 256) == n % 0x1_0000_0000_0000_0000
  }

  lemma EightBytes()
    ensures Power(256, 8) == 0x1_0000_0000_0000_0000
  {
    assert Power(256, 2) == 0x1_0000;
    assert Power(256, 4) == 0x1_0000_0000;
    assert Power(256, 6) == 0x1_0000_0000_0000;
  }

  // ---- Verification ----

  /** Go's integer division, towards zero. */
  function Quotient(a: int, b: nat): int
    requires b > 0
  {
    if a >= 0 then a / b else -(-a / b)
  }

  /** The counter converted to 64 unsigned bits and written out. */
  function Message(unix: int, skew: int): seq<Byte> {
    BigEndian((Quotient(unix, STEP) + skew) % 0x1_0000_0000_0000_0000, 8)
  }

  lemma MessageIs(unix: int, skew: int)
    ensures IsMessage(Message(unix, skew), StepsAt(unix) + skew)
  {
    EightBytes();
    BigEndianValue((Quotient(unix, STEP) + skew) % 0x1_0000_0000_0000_0000, 8);
  }

  /** Steps of thirty seconds since the epoch, or before it, counted towards it. */
  function StepsAt(unix: int): int {
    if unix >= 0 then unix / 30 else -(-unix / 30)
  }

  /** The code of the standard for a number of time steps. */
  ghost predicate IsCodeAt(mac: KeyedHash, steps: int, code: string) {
    exists msg: seq<Byte> :: IsMessage(msg, steps) && IsCodeOf(mac(msg), code)
  }

  /** The same for `skew` steps later. */
  ghost predicate IsCodeNear(mac: KeyedHash, steps: int, skew: int, code: string) {
    IsCodeAt(mac, steps + skew, code)
  }

  /** The current, the previous or the next step has this code. */
  ghost predicate IsCodeAround(mac: KeyedHash, steps: int, code: string) {
    IsCodeNear(mac, steps, -1, code) || IsCodeNear(mac, steps, 0, code) || IsCodeNear(mac, steps, 1, code)
  }

  /** There are a code and a usable secret, and the code is one of these. */
  ghost predicate Accepts(key: Option<KeyedHash>, secret: string, code: string, unix: int) {
    secret != "" && code != "" && key.Some? && IsCodeAround(key.value, StepsAt(unix), code)
  }

  /** There is one code for a number of steps. */
  lemma OneCode(mac: KeyedHash, msg: seq<Byte>, steps: int, expected: string, code: string)
    requires IsMessage(msg, steps) && IsCodeOf(mac(msg), expected)
    ensures code == expected <==> IsCodeAt(mac, steps, code)
  {
    if IsCodeAt(mac, steps, code) {
      var m: seq<Byte> :| IsMessage(m, steps) && IsCodeOf(mac(m), code);
      NumberInjective(m, msg, 256);
      SameDigits(code, expected);
    }
  }

  /** What the code is compared with in one round. */
  method Expected(mac: KeyedHash, unix: int, skew: int, ghost code: string) returns (expected: string)
    ensures code == expected <==> IsCodeNear(mac, StepsAt(unix), skew, code)
  {
    var msg := Message(unix, skew);
    MessageIs(unix, skew);
    expected := Truncate(mac(msg));
    OneCode(mac, msg, StepsAt(unix) + skew, expected, code);
  }

  /** `key` is None when the secret is not base32. */
  method VerifyTOTP(key: Option<KeyedHash>, secret: string, code: string, unix: int) returns (ok: bool)
    ensures ok <==> Accepts(key, secret, code, unix)
  {
    if secret == "" || code == "" || key.None? {
      return false;
    }
    for skew := -1 to 2
      invariant forall k :: -1 <= k < skew ==> !IsCodeNear(key.value, StepsAt(unix), k, code)
    {
      var expected := Expected(key.value, unix, skew, code);
      if expected == code {
        return true;
      }
    }
    return false;
  }

  lemma CodeIsNotEmpty(mac: KeyedHash, steps: int, code: string)
    requires IsCodeAt(mac, steps, code)
    ensures code != ""
  {
  }

  lemma StepIsAround(mac: KeyedHash, steps: int, now: int, code: string)
    requires IsCodeAt(mac, steps, code) && -1 <= steps - now <= 1
    ensures IsCodeAround(mac, now, code)
  {
    assert IsCodeNear(mac, now, steps - now, code);
  }

  lemma AroundHasStep(mac: KeyedHash, now: int, code: string) returns (skew: int)
    requires IsCodeAround(mac, now, code)
    ensures -1 <= skew <= 1 && IsCodeAt(mac, now + skew, code)
  {
    skew := if IsCodeNear(mac, now, -1, code) then -1 else if IsCodeNear(mac, now, 0, code) then 0 else 1;
  }

  /** A code made at t is accepted at every t' at most 30 seconds away. */
  lemma AcceptedNearby(mac: KeyedHash, secret: string, code: string, t: nat, t': nat)
    requires secret != "" && IsCodeAt(mac, t / 30, code) && -30 <= t - t' <= 30
    ensures Accepts(Some(mac), secret, code, t')
  {
    CodeIsNotEmpty(mac, t / 30, code);
    StepIsAround(mac, t / 30, t' / 30, code);
  }

  lemma SteppedTime(now: nat, skew: int) returns (t: nat)
    requires -1 <= skew <= 1 && now >= 30
    ensures t / 30 == now / 30 + skew
  {
    t := if skew < 0 then now - 30 else if skew == 0 then now else now + 30;
  }

  lemma AroundHasTime(mac: KeyedHash, code: string, now: nat) returns (t: nat)
    requires now >= 30 && IsCodeAround(mac, now / 30, code)
    ensures now / 30 - 1 <= t / 30 <= now / 30 + 1 && IsCodeAt(mac, t / 30, code)
  {
    var skew := AroundHasStep(mac, now / 30, code);
    t := SteppedTime(now, skew);
  }

  /** From the second step of the epoch on, the accepted codes are exactly those of the standard for the
      current, the previous and the next step: nothing made 60 seconds away is let in by its time. */
  lemma AcceptedOnlyNearby(mac: KeyedHash, secret: string, code: string, now: nat)
    requires secret != "" && now >= 30
    ensures Accepts(Some(mac), secret, code, now)
            <==> exists t: nat :: now / 30 - 1 <= t / 30 <= now / 30 + 1 && IsCodeAt(mac, t / 30, code)
  {
    if Accepts(Some(mac), secret, code, now) {
      var t := AroundHasTime(mac, code, now);
    }
    if t: nat :| now / 30 - 1 <= t / 30 <= now / 30 + 1 && IsCodeAt(mac, t / 30, code) {
      CodeIsNotEmpty(mac, t / 30, code);
      StepIsAround(mac, t / 30, now / 30, code);
    }
  }
}
