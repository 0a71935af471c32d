/** The stored form of a password, "$argon2id$v=19$m=..,t=..,p=..$salt$hash": the printer of
    hashPassword and the parser of verifyPassword. Argon2id is a parameter. */
module PasswordFormat {
  import opened Options
  import opened Text
  import opened Bytes
  import opened Base64

  // ---------------------------------------------------------------- decimals

  predicate IsDigit(c: char) { '0' <= c <= '9' }

  function Digit(n: nat): char
    requires n < 10
  {
    '0' + n as char
  }

  function DigitValue(c: char): nat
    requires IsDigit(c)
  {
    (c as int) - ('0' as int)
  }

  function Decimal(n: nat): (s: string)
    ensures s != "" && forall i :: 0 <= i < |s| ==> IsDigit(s[i])
  {
    if n < 10 then [Digit(n)] else Decimal(n / 10) + [Digit(n % 10)]
  }

  function NumberOf(s: string): nat
    requires forall i :: 0 <= i < |s| ==> IsDigit(s[i])
  {
    if s == "" then 0 else NumberOf(s[..|s| - 1]) * 10 + DigitValue(s[|s| - 1])
  }

  lemma {:induction false} NumberOfDecimal(n: nat)
    ensures NumberOf(Decimal(n)) == n
  {
    if n < 10 {
      assert Decimal(n)[..0] == "";
    } else {
      NumberOfDecimal(n / 10);
      assert Decimal(n)[..|Decimal(n)| - 1] == Decimal(n / 10);
    }
  }

  // ---------------------------------------------------------------- fmt.Sscanf("m=%d,t=%d,p=%d")

  /** Length of the run of digits at the front. */
  function DigitRun(s: string): (k: nat)
    ensures k <= |s| && forall i :: 0 <= i < k ==> IsDigit(s[i])
  {
    if s == "" || !IsDigit(s[0]) then 0 else 1 + DigitRun(s[1..])
  }

  /** Leading blanks are skipped, a line break among them is an error. */
  function SkipSpace(s: string): Option<string> {
    if s == "" || !IsSpace(s[0]) then Some(s)
    else if s[0] == '\n' then None
    else SkipSpace(s[1..])
  }

  /** %d into an unsigned integer below `limit`: the value and the rest of the input. */
  function ScanUint(s: string, limit: nat): Option<(nat, string)> {
    var t := SkipSpace(s);
    if t.None? then None
    else
      var k := DigitRun(t.value);
      if k == 0 || NumberOf(t.value[..k]) >= limit then None
      else Some((NumberOf(t.value[..k]), t.value[k..]))
  }

  function ScanLiteral(s: string, literal: string): Option<string> {
    if literal <= s then Some(s[|literal|..]) else None
  }

  /** A literal followed by a number. */
  function ScanField(s: string, literal: string, limit: nat): Option<(nat, string)> {
    var t := ScanLiteral(s, literal);
    if t.None? then None else ScanUint(t.value, limit)
  }

  const UINT32: nat := 0x1_0000_0000
  const UINT8: nat := 0x100

  datatype Params = Params(memory: nat, iterations: nat, parallelism: nat)

  /** Input after the last number is not looked at. */
  function ScanParams(s: string): Option<Params> {
    var m := ScanField(s, "m=", UINT32);
    if m.None? then None
    else
      var t := ScanField(m.value.1, ",t=", UINT32);
      if t.None? then None
      else
        var p := ScanField(t.value.1, ",p=", UINT8);
        if p.None? then None else Some(Params(m.value.0, t.value.0, p.value.0))
  }

  lemma {:induction false} DigitRunEnds(a: string, b: string)
    requires forall i :: 0 <= i < |a| ==> IsDigit(a[i])
    requires b == "" || !IsDigit(b[0])
    ensures DigitRun(a + b) == |a|
  {
    if a == "" {
      assert a + b == b;
    } else {
      assert (a + b)[1..] == a[1..] + b;
      DigitRunEnds(a[1..], b);
    }
  }

  /** Scanning a printed number gives it back, or an error when it is out of range. */
  lemma FieldRoundTrip(literal: string, n: nat, rest: string, limit: nat)
    requires rest == "" || !IsDigit(rest[0])
    ensures ScanField(literal + Decimal(n) + rest, literal, limit) == if n < limit then Some((n, rest)) else None
  {
    var s, d := literal + Decimal(n) + rest, Decimal(n);
    var t := d + rest;
    assert s[|literal|..] == t && literal <= s;
    assert IsDigit(t[0]);
    DigitRunEnds(d, rest);
    assert t[..|d|] == d && t[|d|..] == rest;
    NumberOfDecimal(n);
  }

  // ---------------------------------------------------------------- the printed string

  function PrintParams(p: Params): string {
    "m=" + Decimal(p.memory) + (",t=" + Decimal(p.iterations) + (",p=" + Decimal(p.parallelism) + ""))
  }

  /** What hashPassword prints. */
  function Print(p: Params, salt: seq<byte>, hash: seq<byte>): string {
    "$argon2id$v=19$" + PrintParams(p) + "$" + EncodeToString(salt) + "$" + EncodeToString(hash)
  }

  ghost predicate InRange(p: Params) {
    p.memory < 4_294_967_296 && p.iterations < 4_294_967_296 && p.parallelism < 256
  }

  lemma ParamsRoundTrip(p: Params)
    ensures ScanParams(PrintParams(p)) == if InRange(p) then Some(p) else None
  {
    var last := ",p=" + Decimal(p.parallelism) + "";
    var mid := ",t=" + Decimal(p.iterations) + last;
    FieldRoundTrip("m=", p.memory, mid, UINT32);
    FieldRoundTrip(",t=", p.iterations, last, UINT32);
    FieldRoundTrip(",p=", p.parallelism, "", UINT8);
  }

  lemma PrintParamsHasNoDollar(p: Params)
    ensures '$' !in PrintParams(p)
  {
    assert !IsDigit('$');
  }

  lemma SplitSix(a: string, b: string, c: string, d: string, e: string)
    requires '$' !in a && '$' !in b && '$' !in c && '$' !in d && '$' !in e
    ensures Split("$" + a + "$" + b + "$" + c + "$" + d + "$" + e, '$') == ["", a, b, c, d, e]
  {
    var s1, s2, s3 := "" + ['$'] + a, "" + ['$'] + a + ['$'] + b, "" + ['$'] + a + ['$'] + b + ['$'] + c;
    SplitNone(a, '$');
    SplitNone(b, '$');
    SplitNone(c, '$');
    SplitNone(d, '$');
    SplitNone(e, '$');
    SplitAppend("", a, '$');
    SplitAppend(s1, b, '$');
    SplitAppend(s2, c, '$');
    SplitAppend(s3, d, '$');
    SplitAppend(s3 + ['$'] + d, e, '$');
    assert "$" + a == s1;
  }

  /** The fields of a printed string are its parts between dollar signs. */
  lemma FieldsOfPrint(p: Params, salt: seq<byte>, hash: seq<byte>)
    ensures Split(Print(p, salt, hash), '$') ==
            ["", "argon2id", "v=19", PrintParams(p), EncodeToString(salt), EncodeToString(hash)]
  {
    Base64RoundTrip(salt);
    Base64RoundTrip(hash);
    PrintParamsHasNoDollar(p);
    SplitSix("argon2id", "v=19", PrintParams(p), EncodeToString(salt), EncodeToString(hash));
    assert "$" + "argon2id" + "$" + "v=19" + "$" == "$argon2id$v=19$";
  }

  // ---------------------------------------------------------------- verification

  /** Argon2id: password, salt, iterations, memory, parallelism, key length. */
  type Kdf = (string, seq<byte>, nat, nat, nat, nat) -> seq<byte>

  /** Malformed stands for every error return; Argon2id itself panics below one iteration or lane. */
  datatype Verdict = Checked(matches: bool) | Malformed | Panics

  datatype Stored = Stored(params: Params, salt: seq<byte>, hash: seq<byte>)

  /** The parser of verifyPassword. */
  function Parse(encoded: string): Option<Stored> {
    var parts := Split(encoded, '$');
    if |parts| != 6 || parts[1] != "argon2id" then None
    else if parts[2] != "v=19" then None
    else
      var params, salt, hash := ScanParams(parts[3]), DecodeString(parts[4]), DecodeString(parts[5]);
      if params.None? || salt.None? || hash.None? || hash.value == [] then None
      else Some(Stored(params.value, salt.value, hash.value))
  }

  function VerifyPassword(kdf: Kdf, password: string, encoded: string): Verdict {
    var s := Parse(encoded);
    if s.None? then Malformed
    else if s.value.params.iterations < 1 || s.value.params.parallelism < 1 then Panics
    else
      var computed := kdf(password, s.value.salt, s.value.params.iterations, s.value.params.memory,
                          s.value.params.parallelism, |s.value.hash|);
      Checked(computed == s.value.hash)
  }

  /** Round trip: whatever is printed is parsed back exactly, an empty hash excepted. */
  lemma ParseOfPrint(p: Params, salt: seq<byte>, hash: seq<byte>)
    requires InRange(p)
    ensures Parse(Print(p, salt, hash)) == if hash == [] then None else Some(Stored(p, salt, hash))
  {
    FieldsOfPrint(p, salt, hash);
    ParamsRoundTrip(p);
    Base64RoundTrip(salt);
    Base64RoundTrip(hash);
    ParseFields(Print(p, salt, hash), PrintParams(p), EncodeToString(salt), EncodeToString(hash),
                Stored(p, salt, hash));
  }

  lemma ParseFields(encoded: string, params: string, salt: string, hash: string, s: Stored)
    requires Split(encoded, '$') == ["", "argon2id", "v=19", params, salt, hash]
    requires ScanParams(params) == Some(s.params)
    requires DecodeString(salt) == Some(s.salt) && DecodeString(hash) == Some(s.hash)
    ensures Parse(encoded) == if s.hash == [] then None else Some(s)
  {
  }

  /** Distinct values print differently. */
  lemma PrintInjective(p: Params, salt: seq<byte>, hash: seq<byte>, p': Params, salt': seq<byte>, hash': seq<byte>)
    requires InRange(p) && InRange(p') && hash != [] && Print(p, salt, hash) == Print(p', salt', hash')
    ensures p == p' && salt == salt' && hash == hash'
  {
    ParseOfPrint(p, salt, hash);
    ParseOfPrint(p', salt', hash');
  }

  lemma OutOfRange(p: Params, salt: seq<byte>, hash: seq<byte>)
    requires !InRange(p)
    ensures Parse(Print(p, salt, hash)).None?
  {
    FieldsOfPrint(p, salt, hash);
    ParamsRoundTrip(p);
  }

  /** Verification of a printed string, for all parameters and hashes: an error for numbers that do not fit
      and for an empty hash, a panic for zero iterations or lanes, and otherwise a success precisely when
      recomputing gives the stored hash. */
  lemma VerifyIff(kdf: Kdf, password: string, p: Params, salt: seq<byte>, hash: seq<byte>)
    ensures VerifyPassword(kdf, password, Print(p, salt, hash)) ==
            if !InRange(p) || hash == [] then Malformed
            else if p.iterations == 0 || p.parallelism == 0 then Panics
            else Checked(kdf(password, salt, p.iterations, p.memory, p.parallelism, |hash|) == hash)
  {
    if InRange(p) {
      ParseOfPrint(p, salt, hash);
    } else {
      OutOfRange(p, salt, hash);
    }
  }

  const STORED_PARAMS := Params(64 * 1024, 3, 2)

  function HashPassword(kdf: Kdf, password: string, salt: seq<byte>): string {
    Print(STORED_PARAMS, salt, kdf(password, salt, 3, 64 * 1024, 2, 32))
  }

  /** The stored string, written out. */
  lemma StoredForm(kdf: Kdf, password: string, salt: seq<byte>)
    ensures HashPassword(kdf, password, salt) ==
      "$argon2id$v=19$m=65536,t=3,p=2$" + EncodeToString(salt) + "$" +
      EncodeToString(kdf(password, salt, 3, 65536, 2, 32))
  {
    StoredParams();
    assert "$argon2id$v=19$" + "m=65536,t=3,p=2" + "$" == "$argon2id$v=19$m=65536,t=3,p=2$";
  }

  lemma StoredParams()
    ensures PrintParams(STORED_PARAMS) == "m=65536,t=3,p=2"
  {
    StoredNumbers();
  }

  lemma DecimalStep(n: nat, s: string, d: nat)
    requires Decimal(n) == s && n > 0 && d < 10
    ensures Decimal(10 * n + d) == s + [Digit(d)]
  {
  }

  lemma StoredNumbers()
    ensures Decimal(65536) == "65536" && Decimal(3) == "3" && Decimal(2) == "2"
  {
    DecimalStep(6, "6", 5);
    DecimalStep(65, "65", 5);
    DecimalStep(655, "655", 3);
    DecimalStep(6553, "6553", 6);
  }

  /** A string whose second and third fields name another scheme or version does not verify. */
  lemma ForeignRefused(kdf: Kdf, password: string, first: string, scheme: string, version: string, rest: string)
    requires '$' !in first && '$' !in scheme && '$' !in version && (scheme != "argon2id" || version != "19")
    ensures VerifyPassword(kdf, password, first + "$" + scheme + "$" + ("v=" + version) + "$" + rest) == Malformed
  {
    var v := "v=" + version;
    var s1 := first + ['$'] + scheme;
    var s2 := s1 + ['$'] + v;
    SplitNone(first, '$');
    SplitNone(scheme, '$');
    SplitNone(v, '$');
    SplitAppend(first, scheme, '$');
    SplitAppend(s1, v, '$');
    SplitAppend(s2, rest, '$');
    assert first + "$" + scheme + "$" + v + "$" + rest == s2 + ['$'] + rest;
    assert v[2..] == version;
  }

  /** A password verifies against its own hash, and another one exactly when the two collide. */
  lemma HashThenVerify(kdf: Kdf, password: string, attempt: string, salt: seq<byte>)
    requires forall pw, s :: |kdf(pw, s, 3, 64 * 1024, 2, 32)| == 32
    ensures VerifyPassword(kdf, password, HashPassword(kdf, password, salt)) == Checked(true)
    ensures VerifyPassword(kdf, attempt, HashPassword(kdf, password, salt)) ==
            Checked(kdf(attempt, salt, 3, 64 * 1024, 2, 32) == kdf(password, salt, 3, 64 * 1024, 2, 32))
  {
    var hash := kdf(password, salt, 3, 64 * 1024, 2, 32);
    VerifyIff(kdf, password, STORED_PARAMS, salt, hash);
    VerifyIff(kdf, attempt, STORED_PARAMS, salt, hash);
  }
}
