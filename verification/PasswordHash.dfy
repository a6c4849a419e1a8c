/** Printing and checking Argon2id hash strings. The key derivation itself is a parameter. */
module PasswordHash {
  import opened Strings
  import opened Decimal
  import opened Options
  import Base64

  type Byte = Base64.Byte
  type Uint32 = x: nat | x < 0x1_0000_0000
  type Uint8 = x: nat | x < 0x100

  /** password, salt, time, memory, threads, key length */
  type KeyDerivation = (string, seq<Byte>, nat, nat, nat, nat) -> seq<Byte>

  datatype HashConfig = HashConfig(time: Uint32, memory: Uint32, threads: Uint8, keyLen: Uint32)

  const VERSION: nat := 19

  function Params(c: HashConfig): string {
    "m=" + Show(c.memory) + ",t=" + Show(c.time) + ",p=" + Show(c.threads)
  }

  function HashPassword(password: string, salt: seq<Byte>, c: HashConfig, kdf: KeyDerivation): string {
    var hash := kdf(password, salt, c.time, c.memory, c.threads, c.keyLen);
    "$" + ("argon2id" + "$" + ("v=" + Show(VERSION) + "$" + (Params(c) + "$"
    + (Base64.EncodeToString(salt) + "$" + Base64.EncodeToString(hash)))))
  }

  // ---- Scanning, as fmt.Sscanf does for these formats ----

  datatype Scan<T> = Failed | Scanned(value: T, rest: string)

  /** White space that a verb skips; a line break makes it fail instead. */
  predicate IsBlank(c: char) {
    c == ' ' || c == '\t' || c == '\r' || c == '\U{b}' || c == '\U{c}'
  }

  function ScanDigits(s: string): Scan<nat> {
    var n := Skip(s, 0, IsDigit);
    if n == 0 then Failed else Scanned(Value(s[..n]), s[n..])
  }

  function SkipBlanks(s: string): string {
    s[Skip(s, 0, IsBlank)..]
  }

  /** %d into an unsigned variable below the limit. */
  function ScanUint(s: string, limit: nat): Scan<nat> {
    match ScanDigits(SkipBlanks(s))
    case Failed => Failed
    case Scanned(v, rest) => if v < limit then Scanned(v, rest) else Failed
  }

  /** %d into an int of 64 bits. */
  function ScanInt(s: string): Scan<int> {
    var t := SkipBlanks(s);
    var negative := t != "" && t[0] == '-';
    match ScanDigits(if t != "" && (t[0] == '-' || t[0] == '+') then t[1..] else t)
    case Failed => Failed
    case Scanned(v, rest) =>
      if v < 0x8000_0000_0000_0000 || (negative && v == 0x8000_0000_0000_0000)
      then Scanned(if negative then -(v as int) else v as int, rest) else Failed
  }

  function Literal(s: string, lit: string): Scan<()> {
    if lit <= s then Scanned((), s[|lit|..]) else Failed
  }

  /** "v=%d" */
  function ScanVersion(s: string): Scan<int> {
    match Literal(s, "v=")
    case Failed => Failed
    case Scanned(_, rest) => ScanInt(rest)
  }

  /** A literal and then a number. */
  function ScanField(s: string, lit: string, limit: nat): Scan<nat> {
    match Literal(s, lit)
    case Failed => Failed
    case Scanned(_, rest) => ScanUint(rest, limit)
  }

  datatype Costs = Costs(memory: nat, time: nat, threads: nat)

  /** "m=%d,t=%d,p=%d" */
  function ScanParams(s: string): Scan<Costs> {
    match ScanField(s, "m=", 0x1_0000_0000)
    case Failed => Failed
    case Scanned(m, s1) =>
      match ScanField(s1, ",t=", 0x1_0000_0000)
      case Failed => Failed
      case Scanned(t, s2) =>
        match ScanField(s2, ",p=", 0x100)
        case Failed => Failed
        case Scanned(p, rest) => Scanned(Costs(m, t, p), rest)
  }

  datatype Error = InvalidFormat | IncompatibleVersion | BadParameters | BadSalt | BadHash

  datatype Result = Checked(matches: bool) | Rejected(error: Error)

  /** The fields in the order in which they are read; the first bad one decides. */
  function CheckFields(password: string, version: Scan<int>, params: Scan<Costs>, salt: Option<seq<Byte>>,
                       decodedHash: Option<seq<Byte>>, kdf: KeyDerivation): Result {
    if version.Failed? || version.value != VERSION then Rejected(IncompatibleVersion)
    else if params.Failed? then Rejected(BadParameters)
    else if salt.None? then Rejected(BadSalt)
    else if decodedHash.None? then Rejected(BadHash)
    else
      var c, keyLen := params.value, |decodedHash.value| % 0x1_0000_0000;   // converted to 32 bits
      Checked(decodedHash.value == kdf(password, salt.value, c.time, c.memory, c.threads, keyLen))
  }

  function VerifyPassword(password: string, encodedHash: string, kdf: KeyDerivation): Result {
    var parts := Split(encodedHash, "$");
    if |parts| != 6 || parts[1] != "argon2id" then Rejected(InvalidFormat)
    else
      CheckFields(password, ScanVersion(parts[2]), ScanParams(parts[3]), Base64.DecodeString(parts[4]),
                  Base64.DecodeString(parts[5]), kdf)
  }

  // ---- The round trip ----

  lemma ScanShow(n: nat, rest: string)
    requires rest == "" || !IsDigit(rest[0])
    ensures ScanDigits(SkipBlanks(Show(n) + rest)) == Scanned(n, rest)
    ensures SkipBlanks(Show(n) + rest) == Show(n) + rest
  {
    var s := Show(n) + rest;
    assert IsDigit(s[0]) by { assert s[0] == Show(n)[0]; }
    SkipIs(s, 0, 0, IsBlank);
    assert s[0..] == s;
    assert forall k :: 0 <= k < |Show(n)| ==> s[k] == Show(n)[k];
    SkipIs(s, 0, |Show(n)|, IsDigit);
    assert s[..|Show(n)|] == Show(n) && s[|Show(n)|..] == rest;
    ShowValue(n);
  }

  lemma ScanFieldShow(lit: string, n: nat, limit: nat, rest: string)
    requires n < limit && (rest == "" || !IsDigit(rest[0]))
    ensures ScanField(lit + (Show(n) + rest), lit, limit) == Scanned(n, rest)
  {
    var s := lit + (Show(n) + rest);
    assert s[|lit|..] == Show(n) + rest && lit <= s;
    ScanShow(n, rest);
  }

  lemma ParamsRoundTrip(c: HashConfig)
    ensures ScanParams(Params(c)) == Scanned(Costs(c.memory, c.time, c.threads), "")
  {
    var p := ",p=" + (Show(c.threads) + "");
    var t := ",t=" + (Show(c.time) + p);
    assert Show(c.threads) + "" == Show(c.threads);
    assert Params(c) == "m=" + (Show(c.memory) + t);
    ScanFieldShow("m=", c.memory, 0x1_0000_0000, t);
    ScanFieldShow(",t=", c.time, 0x1_0000_0000, p);
    ScanFieldShow(",p=", c.threads, 0x100, "");
  }

  lemma VersionRoundTrip()
    ensures ScanVersion("v=" + Show(VERSION)) == Scanned(VERSION, "")
  {
    var s := "v=" + Show(VERSION);
    assert s[2..] == Show(VERSION) && "v=" <= s;
    assert Show(VERSION) + "" == Show(VERSION);
    ScanShow(VERSION, "");
    assert IsDigit(Show(VERSION)[0]);
  }

  lemma DigitsFree(n: nat)
    ensures '$' !in Show(n)
  {
  }

  lemma EncodedFree(b: seq<Byte>)
    ensures '$' !in Base64.EncodeToString(b)
  {
    Base64.EncodedChars(Base64.ToSextets(b));
  }

  lemma ParamsFree(c: HashConfig)
    ensures '$' !in Params(c)
  {
    DigitsFree(c.memory);
    DigitsFree(c.time);
    DigitsFree(c.threads);
  }

  lemma LastFields(params: string, salt: string, hash: string)
    requires '$' !in params && '$' !in salt && '$' !in hash
    ensures Split(params + "$" + (salt + "$" + hash), "$") == [params, salt, hash]
  {
    SplitLastField(hash, '$');
    SplitField(salt, '$', hash);
    SplitField(params, '$', salt + "$" + hash);
  }

  lemma FirstFields(rest: string)
    ensures Split("$" + ("argon2id" + "$" + ("v=" + Show(VERSION) + "$" + rest)), "$")
            == [""] + (["argon2id"] + (["v=" + Show(VERSION)] + Split(rest, "$")))
  {
    var version := "v=" + Show(VERSION);
    DigitsFree(VERSION);
    SplitField(version, '$', rest);
    SplitField("argon2id", '$', version + "$" + rest);
    SplitField("", '$', "argon2id" + "$" + (version + "$" + rest));
    assert "" + "$" + ("argon2id" + "$" + (version + "$" + rest)) == "$" + ("argon2id" + "$" + (version + "$" + rest));
  }

  /** Splitting the printed string on `$` yields exactly the six printed fields. */
  lemma SixFields(params: string, salt: string, hash: string)
    requires '$' !in params && '$' !in salt && '$' !in hash
    ensures Split("$" + ("argon2id" + "$" + ("v=" + Show(VERSION) + "$" + (params + "$" + (salt + "$" + hash)))), "$")
            == ["", "argon2id", "v=" + Show(VERSION), params, salt, hash]
  {
    LastFields(params, salt, hash);
    FirstFields(params + "$" + (salt + "$" + hash));
  }

  lemma CheckAccepted(q: string, costs: Costs, salt: seq<Byte>, hash: seq<Byte>, kdf: KeyDerivation)
    requires |hash| < 0x1_0000_0000
    ensures CheckFields(q, Scanned(VERSION, ""), Scanned(costs, ""), Some(salt), Some(hash), kdf)
            == Checked(hash == kdf(q, salt, costs.time, costs.memory, costs.threads, |hash|))
  {
  }

  lemma VerifyUnfolds(q: string, encoded: string, fields: seq<string>, kdf: KeyDerivation)
    requires Split(encoded, "$") == fields && |fields| == 6 && fields[1] == "argon2id"
    ensures VerifyPassword(q, encoded, kdf)
            == CheckFields(q, ScanVersion(fields[2]), ScanParams(fields[3]), Base64.DecodeString(fields[4]),
                           Base64.DecodeString(fields[5]), kdf)
  {
  }

  lemma PrintedFields(p: string, salt: seq<Byte>, c: HashConfig, kdf: KeyDerivation)
    ensures var hash := kdf(p, salt, c.time, c.memory, c.threads, c.keyLen);
            Split(HashPassword(p, salt, c, kdf), "$")
            == ["", "argon2id", "v=" + Show(VERSION), Params(c),
                Base64.EncodeToString(salt), Base64.EncodeToString(hash)]
  {
    var hash := kdf(p, salt, c.time, c.memory, c.threads, c.keyLen);
    ParamsFree(c);
    EncodedFree(salt);
    EncodedFree(hash);
    SixFields(Params(c), Base64.EncodeToString(salt), Base64.EncodeToString(hash));
  }

  /** A printed hash is never rejected, and it accepts a password exactly when that password derives the
      same key; in particular the one it was made from. */
  lemma HashRoundTrip(p: string, q: string, salt: seq<Byte>, c: HashConfig, kdf: KeyDerivation)
    requires forall pw, s, t, m, th, len :: |kdf(pw, s, t, m, th, len)| == len
    ensures VerifyPassword(q, HashPassword(p, salt, c, kdf), kdf)
            == Checked(kdf(p, salt, c.time, c.memory, c.threads, c.keyLen)
                       == kdf(q, salt, c.time, c.memory, c.threads, c.keyLen))
    ensures VerifyPassword(p, HashPassword(p, salt, c, kdf), kdf) == Checked(true)
  {
    var hash := kdf(p, salt, c.time, c.memory, c.threads, c.keyLen);
    PrintedFields(p, salt, c, kdf);
    var fields := ["", "argon2id", "v=" + Show(VERSION), Params(c),
                   Base64.EncodeToString(salt), Base64.EncodeToString(hash)];
    VerifyUnfolds(q, HashPassword(p, salt, c, kdf), fields, kdf);
    VerifyUnfolds(p, HashPassword(p, salt, c, kdf), fields, kdf);
    VersionRoundTrip();
    ParamsRoundTrip(c);
    Base64.RoundTrip(salt);
    Base64.RoundTrip(hash);
    CheckAccepted(q, Costs(c.memory, c.time, c.threads), salt, hash, kdf);
    CheckAccepted(p, Costs(c.memory, c.time, c.threads), salt, hash, kdf);
  }

  // ---- The printed form ----

  lemma Associate(a: string, b: string, c: string)
    ensures a + (b + c) == a + b + c
  {
  }

  lemma NineteenPrinted()
    ensures Show(19) == "19"
  {
    assert Show(1) == "1";
  }

  lemma PrintedHead(rest: string)
    ensures "$" + ("argon2id" + "$" + ("v=" + "19" + "$" + rest)) == "$argon2id$v=19$" + rest
  {
    Associate("argon2id" + "$", "v=" + "19" + "$", rest);
    Associate("$", "argon2id" + "$" + ("v=" + "19" + "$"), rest);
    assert "$" + ("argon2id" + "$" + ("v=" + "19" + "$")) == "$argon2id$v=19$";
  }

  lemma PrintedParams(m: string, t: string, p: string)
    ensures "$argon2id$v=19$" + ("m=" + m + ",t=" + t + ",p=" + p)
            == "$argon2id$v=19$m=" + m + ",t=" + t + ",p=" + p
  {
    var head := "$argon2id$v=19$";
    Associate(head, "m=" + m + ",t=" + t + ",p=", p);
    Associate(head, "m=" + m + ",t=" + t, ",p=");
    Associate(head, "m=" + m + ",t=", t);
    Associate(head, "m=" + m, ",t=");
    Associate(head, "m=", m);
    assert head + "m=" == "$argon2id$v=19$m=";
  }

  lemma PrintedTail(head: string, salt: string, hash: string)
    ensures head + "$" + (salt + "$" + hash) == head + "$" + salt + "$" + hash
  {
    Associate(head + "$", salt + "$", hash);
    Associate(head + "$", salt, "$");
  }

  /** The printed string, with the version and the order of the costs. */
  lemma PrintedForm(password: string, salt: seq<Byte>, c: HashConfig, kdf: KeyDerivation)
    ensures HashPassword(password, salt, c, kdf)
            == "$argon2id$v=19$m=" + Show(c.memory) + ",t=" + Show(c.time) + ",p=" + Show(c.threads)
               + "$" + Base64.EncodeToString(salt)
               + "$" + Base64.EncodeToString(kdf(password, salt, c.time, c.memory, c.threads, c.keyLen))
  {
    var s, h := Base64.EncodeToString(salt),
                Base64.EncodeToString(kdf(password, salt, c.time, c.memory, c.threads, c.keyLen));
    NineteenPrinted();
    PrintedHead(Params(c) + "$" + (s + "$" + h));
    Associate("$argon2id$v=19$", Params(c) + "$", s + "$" + h);
    Associate("$argon2id$v=19$", Params(c), "$");
    PrintedParams(Show(c.memory), Show(c.time), Show(c.threads));
    PrintedTail("$argon2id$v=19$" + Params(c), s, h);
  }

  // ---- What a stored string reads as ----

  ghost predicate Blank(c: char) {
    c == ' ' || c == '\t' || c == '\r' || c == '\U{b}' || c == '\U{c}'
  }

  /** t is what s has after its leading blanks. */
  ghost predicate AfterBlanks(s: string, t: string) {
    && |t| <= |s| && t == s[|s| - |t|..] && (t != "" ==> !Blank(t[0]))
    && forall k :: 0 <= k < |s| - |t| ==> Blank(s[k])
  }

  lemma BlanksSkipped(s: string)
    ensures AfterBlanks(s, SkipBlanks(s))
  {
  }

  lemma AfterBlanksOnce(s: string, t: string)
    requires AfterBlanks(s, t)
    ensures SkipBlanks(s) == t
  {
    SkipIs(s, 0, |s| - |t|, IsBlank);
  }

  /** All the leading digits of t and the number they denote. */
  ghost predicate Digits(t: string, digits: string, v: nat, rest: string) {
    && t == digits + rest && (rest != "" ==> !IsDigit(rest[0]))
    && digits != "" && AllDigits(digits) && Value(digits) == v
  }

  ghost predicate ReadsDigits(t: string, v: nat, rest: string) {
    exists digits :: Digits(t, digits, v, rest)
  }

  lemma DigitsRead(t: string, v: nat, rest: string)
    ensures ScanDigits(t) == Scanned(v, rest) <==> ReadsDigits(t, v, rest)
  {
    if ScanDigits(t) == Scanned(v, rest) {
      assert Digits(t, t[..Skip(t, 0, IsDigit)], v, rest);
    }
    if digits :| Digits(t, digits, v, rest) {
      DigitsScan(t, digits, v, rest);
    }
  }

  lemma DigitsScan(t: string, digits: string, v: nat, rest: string)
    requires Digits(t, digits, v, rest)
    ensures ScanDigits(t) == Scanned(v, rest)
  {
    assert forall k :: 0 <= k < |digits| ==> t[k] == digits[k];
    SkipIs(t, 0, |digits|, IsDigit);
    assert t[..|digits|] == digits && t[|digits|..] == rest;
  }

  /** Blanks, a number with all its digits, and what follows it. */
  ghost predicate ReadsNumber(s: string, v: nat, rest: string) {
    exists t :: AfterBlanks(s, t) && ReadsDigits(t, v, rest)
  }

  lemma UintReads(s: string, limit: nat, v: nat, rest: string)
    ensures ScanUint(s, limit) == Scanned(v, rest) <==> v < limit && ReadsNumber(s, v, rest)
  {
    BlanksSkipped(s);
    DigitsRead(SkipBlanks(s), v, rest);
    if t :| AfterBlanks(s, t) && ReadsDigits(t, v, rest) {
      AfterBlanksOnce(s, t);
    }
  }

  /** The literal, then a number. */
  ghost predicate ReadsField(s: string, lit: string, v: nat, rest: string) {
    lit <= s && ReadsNumber(s[|lit|..], v, rest)
  }

  lemma FieldReads(s: string, lit: string, limit: nat, v: nat, rest: string)
    ensures ScanField(s, lit, limit) == Scanned(v, rest) <==> v < limit && ReadsField(s, lit, v, rest)
  {
    if lit <= s {
      UintReads(s[|lit|..], limit, v, rest);
    }
  }

  /** `m=`, `,t=` and `,p=`, each with a number that fits its field; anything may follow. */
  ghost predicate ReadsCosts(s: string, c: Costs) {
    && c.memory < 0x1_0000_0000 && c.time < 0x1_0000_0000 && c.threads < 0x100
    && exists s1, s2, rest :: CostFields(s, c, s1, s2, rest)
  }

  ghost predicate CostFields(s: string, c: Costs, s1: string, s2: string, rest: string) {
    ReadsField(s, "m=", c.memory, s1) && ReadsField(s1, ",t=", c.time, s2) && ReadsField(s2, ",p=", c.threads, rest)
  }

  lemma ScannedCosts(s: string, c: Costs)
    requires ScanParams(s).Scanned? && ScanParams(s).value == c
    ensures ReadsCosts(s, c)
  {
    var first := ScanField(s, "m=", 0x1_0000_0000);
    FieldReads(s, "m=", 0x1_0000_0000, first.value, first.rest);
    var second := ScanField(first.rest, ",t=", 0x1_0000_0000);
    FieldReads(first.rest, ",t=", 0x1_0000_0000, second.value, second.rest);
    var third := ScanField(second.rest, ",p=", 0x100);
    FieldReads(second.rest, ",p=", 0x100, third.value, third.rest);
    assert CostFields(s, c, first.rest, second.rest, third.rest);
  }

  lemma CostsScan(s: string, c: Costs)
    requires ReadsCosts(s, c)
    ensures ScanParams(s).Scanned? && ScanParams(s).value == c
  {
    var s1, s2, rest :| CostFields(s, c, s1, s2, rest);
    FieldReads(s, "m=", 0x1_0000_0000, c.memory, s1);
    FieldReads(s1, ",t=", 0x1_0000_0000, c.time, s2);
    FieldReads(s2, ",p=", 0x100, c.threads, rest);
  }

  /** `v=`, blanks, perhaps a plus sign, and the number nineteen; anything may follow. */
  ghost predicate ReadsVersion(s: string) {
    "v=" <= s && exists t, rest :: AfterBlanks(s[2..], t) && ReadsNineteen(t, rest)
  }

  ghost predicate ReadsNineteen(t: string, rest: string) {
    ReadsDigits(t, 19, rest) || (t != "" && t[0] == '+' && ReadsDigits(t[1..], 19, rest))
  }

  lemma NotASign(t: string, v: nat, rest: string)
    requires ReadsDigits(t, v, rest)
    ensures t != "" && t[0] != '+' && t[0] != '-'
  {
    var digits :| Digits(t, digits, v, rest);
    assert t[0] == digits[0];
  }

  lemma NineteenReads(s: string, rest: string)
    ensures ScanInt(s) == Scanned(19, rest) <==> ReadsNineteen(SkipBlanks(s), rest)
  {
    var t := SkipBlanks(s);
    DigitsRead(t, 19, rest);
    if t != "" {
      DigitsRead(t[1..], 19, rest);
    }
    if ReadsDigits(t, 19, rest) {
      NotASign(t, 19, rest);
    }
  }

  lemma VersionReads(s: string)
    ensures ScanVersion(s).Scanned? && ScanVersion(s).value == VERSION <==> ReadsVersion(s)
  {
    if "v=" <= s {
      BlanksSkipped(s[2..]);
      if ScanVersion(s).Scanned? {
        NineteenReads(s[2..], ScanVersion(s).rest);
      }
      if t, rest :| AfterBlanks(s[2..], t) && ReadsNineteen(t, rest) {
        AfterBlanksOnce(s[2..], t);
        NineteenReads(s[2..], rest);
      }
    }
  }

  ghost predicate SomeCosts(s: string) {
    exists c :: ReadsCosts(s, c)
  }

  ghost predicate SomeBytes(s: string) {
    exists b :: Base64.ReadsAs(s, b)
  }

  /** The stored key is compared with the one that the password derives from the stored salt and costs. */
  ghost predicate Compared(costs: string, salt: string, hash: string, password: string, kdf: KeyDerivation, r: Result) {
    exists c, saltBytes, key ::
      && ReadsCosts(costs, c) && Base64.ReadsAs(salt, saltBytes) && Base64.ReadsAs(hash, key)
      && r == Checked(key == kdf(password, saltBytes, c.time, c.memory, c.threads, |key| % 0x1_0000_0000))
  }

  /** The first bad field decides, in the order in which they are read. */
  predicate FirstBadDecides(version: bool, costs: bool, salt: bool, hash: bool, compared: bool, r: Result) {
    if !version then r == Rejected(IncompatibleVersion)
    else if !costs then r == Rejected(BadParameters)
    else if !salt then r == Rejected(BadSalt)
    else if !hash then r == Rejected(BadHash)
    else compared
  }

  ghost predicate FieldsDecide(version: string, costs: string, salt: string, hash: string, password: string,
                               kdf: KeyDerivation, r: Result) {
    FirstBadDecides(ReadsVersion(version), SomeCosts(costs), SomeBytes(salt), SomeBytes(hash),
                    Compared(costs, salt, hash, password, kdf, r), r)
  }

  /** What a stored string decides about a password. */
  ghost predicate Decides(stored: string, password: string, kdf: KeyDerivation, r: Result) {
    var parts := Split(stored, "$");
    if |parts| != 6 || parts[1] != "argon2id" then r == Rejected(InvalidFormat)
    else FieldsDecide(parts[2], parts[3], parts[4], parts[5], password, kdf, r)
  }

  lemma CostsRead(s: string)
    ensures ScanParams(s).Scanned? <==> SomeCosts(s)
  {
    if ScanParams(s).Scanned? {
      ScannedCosts(s, ScanParams(s).value);
    }
    if c :| ReadsCosts(s, c) {
      CostsScan(s, c);
    }
  }

  lemma BytesRead(s: string)
    ensures Base64.DecodeString(s).Some? <==> SomeBytes(s)
  {
    if Base64.DecodeString(s).Some? {
      Base64.DecodeReads(s, Base64.DecodeString(s).value);
    }
    if b :| Base64.ReadsAs(s, b) {
      Base64.DecodeReads(s, b);
    }
  }

  lemma ComparedWith(costs: string, salt: string, hash: string, c: Costs, saltBytes: seq<Byte>, key: seq<Byte>,
                     password: string, kdf: KeyDerivation, r: Result)
    requires ReadsCosts(costs, c)
    requires Base64.ReadsAs(salt, saltBytes) && Base64.ReadsAs(hash, key)
    requires r == Checked(key == kdf(password, saltBytes, c.time, c.memory, c.threads, |key| % 0x1_0000_0000))
    ensures Compared(costs, salt, hash, password, kdf, r)
  {
  }

  lemma ScannedCompared(costs: string, salt: string, hash: string, c: Costs, saltBytes: seq<Byte>, key: seq<Byte>,
                        password: string, kdf: KeyDerivation, r: Result)
    requires ScanParams(costs).Scanned? && ScanParams(costs).value == c
    requires Base64.DecodeString(salt) == Some(saltBytes) && Base64.DecodeString(hash) == Some(key)
    requires r == Checked(key == kdf(password, saltBytes, c.time, c.memory, c.threads, |key| % 0x1_0000_0000))
    ensures Compared(costs, salt, hash, password, kdf, r)
  {
    ScannedCosts(costs, c);
    Base64.DecodeReads(salt, saltBytes);
    Base64.DecodeReads(hash, key);
    ComparedWith(costs, salt, hash, c, saltBytes, key, password, kdf, r);
  }

  lemma CheckInOrder(password: string, version: Scan<int>, params: Scan<Costs>, salt: Option<seq<Byte>>,
                     hash: Option<seq<Byte>>, kdf: KeyDerivation, compared: bool)
    requires version.Scanned? && version.value == VERSION && params.Scanned? && salt.Some? && hash.Some? ==> compared
    ensures FirstBadDecides(version.Scanned? && version.value == VERSION, params.Scanned?, salt.Some?, hash.Some?,
                            compared, CheckFields(password, version, params, salt, hash, kdf))
  {
  }

  lemma CheckCompares(password: string, version: Scan<int>, costs: string, salt: string, hash: string,
                      kdf: KeyDerivation)
    requires version.Scanned? && version.value == VERSION && ScanParams(costs).Scanned?
    requires Base64.DecodeString(salt).Some? && Base64.DecodeString(hash).Some?
    ensures Compared(costs, salt, hash, password, kdf,
                     CheckFields(password, version, ScanParams(costs), Base64.DecodeString(salt),
                                 Base64.DecodeString(hash), kdf))
  {
    ScannedCompared(costs, salt, hash, ScanParams(costs).value, Base64.DecodeString(salt).value,
                    Base64.DecodeString(hash).value, password, kdf,
                    CheckFields(password, version, ScanParams(costs), Base64.DecodeString(salt),
                                Base64.DecodeString(hash), kdf));
  }

  lemma CheckDecides(password: string, version: string, costs: string, salt: string, hash: string, kdf: KeyDerivation)
    ensures FieldsDecide(version, costs, salt, hash, password, kdf,
                         CheckFields(password, ScanVersion(version), ScanParams(costs), Base64.DecodeString(salt),
                                     Base64.DecodeString(hash), kdf))
  {
    var v, c, s, h := ScanVersion(version), ScanParams(costs), Base64.DecodeString(salt), Base64.DecodeString(hash);
    var compared := Compared(costs, salt, hash, password, kdf, CheckFields(password, v, c, s, h, kdf));
    if v.Scanned? && v.value == VERSION && c.Scanned? && s.Some? && h.Some? {
      CheckCompares(password, v, costs, salt, hash, kdf);
    }
    CheckInOrder(password, v, c, s, h, kdf, compared);
    VersionReads(version);
    CostsRead(costs);
    BytesRead(salt);
    BytesRead(hash);
  }

  /** Every stored string: which of them are rejected, in which order the fields decide, and what the rest are
      compared with. */
  lemma VerifyDecides(password: string, stored: string, kdf: KeyDerivation)
    ensures Decides(stored, password, kdf, VerifyPassword(password, stored, kdf))
  {
    var parts := Split(stored, "$");
    if |parts| == 6 && parts[1] == "argon2id" {
      CheckDecides(password, parts[2], parts[3], parts[4], parts[5], kdf);
    }
  }
}
