/** Unpadded standard base64 (sections 3.2 and 4 of RFC 4648) as encoding/base64 implements it. */
module Base64 {
  import opened Options
  import opened Bytes

  type sextet = x: int | 0 <= x < 64

  function Symbol(v: sextet): char {
    if v < 26 then 'A' + v as char
    else if v < 52 then 'a' + (v - 26) as char
    else if v < 62 then '0' + (v - 52) as char
    else if v == 62 then '+' else '/'
  }

  function ValueOf(c: char): Option<sextet> {
    if 'A' <= c <= 'Z' then Some((c as int) - ('A' as int))
    else if 'a' <= c <= 'z' then Some((c as int) - ('a' as int) + 26)
    else if '0' <= c <= '9' then Some((c as int) - ('0' as int) + 52)
    else if c == '+' then Some(62)
    else if c == '/' then Some(63)
    else None
  }

  lemma ValueOfSymbol(v: sextet)
    ensures ValueOf(Symbol(v)) == Some(v) && Symbol(v) != '\r' && Symbol(v) != '\n' && Symbol(v) != '$'
  {
  }

  lemma SymbolOfValue(c: char)
    ensures ValueOf(c).Some? ==> Symbol(ValueOf(c).value) == c
  {
  }

  // ---------------------------------------------------------------- bytes and sextets

  function First(a: byte): sextet { a / 4 }

  function Second(a: byte, b: byte): sextet { a % 4 * 16 + b / 16 }

  function Third(b: byte, c: byte): sextet { b % 16 * 4 + c / 64 }

  function Fourth(c: byte): sextet { c % 64 }

  function ToSextets(b: seq<byte>): seq<sextet> {
    if |b| == 0 then []
    else if |b| == 1 then [First(b[0]), Second(b[0], 0)]
    else if |b| == 2 then [First(b[0]), Second(b[0], b[1]), Third(b[1], 0)]
    else [First(b[0]), Second(b[0], b[1]), Third(b[1], b[2]), Fourth(b[2])] + ToSextets(b[3..])
  }

  function Hi(a: sextet, b: sextet): byte { a * 4 + b / 16 }

  function Mid(b: sextet, c: sextet): byte { b % 16 * 16 + c / 4 }

  function Lo(c: sextet, d: sextet): byte { c % 4 * 64 + d }

  /** A lone last sextet is an error; spare bits of a last pair or triple are ignored. */
  function FromSextets(v: seq<sextet>): Option<seq<byte>> {
    if |v| == 0 then Some([])
    else if |v| == 1 then None
    else if |v| == 2 then Some([Hi(v[0], v[1])])
    else if |v| == 3 then Some([Hi(v[0], v[1]), Mid(v[1], v[2])])
    else
      var rest := FromSextets(v[4..]);
      if rest.None? then None
      else Some([Hi(v[0], v[1]), Mid(v[1], v[2]), Lo(v[2], v[3])] + rest.value)
  }

  lemma RegroupHi(a: byte, b: byte)
    ensures Hi(First(a), Second(a, b)) == a
  {
  }

  lemma RegroupMid(a: byte, b: byte, c: byte)
    ensures Mid(Second(a, b), Third(b, c)) == b
  {
    assert Second(a, b) % 16 == b / 16;
    assert Third(b, c) / 4 == b % 16;
  }

  lemma RegroupLo(b: byte, c: byte)
    ensures Lo(Third(b, c), Fourth(c)) == c
  {
    assert Third(b, c) % 4 == c / 64;
  }

  lemma FromQuad(x: sextet, y: sextet, z: sextet, u: sextet, rest: seq<sextet>, tail: seq<byte>)
    requires FromSextets(rest) == Some(tail)
    ensures FromSextets([x, y, z, u] + rest) == Some([Hi(x, y), Mid(y, z), Lo(z, u)] + tail)
  {
    assert ([x, y, z, u] + rest)[4..] == rest;
  }

  lemma {:induction false} SextetsRoundTrip(b: seq<byte>)
    ensures FromSextets(ToSextets(b)) == Some(b)
  {
    if |b| == 1 {
      RegroupHi(b[0], 0);
      assert b == [b[0]];
    } else if |b| == 2 {
      RegroupHi(b[0], b[1]);
      RegroupMid(b[0], b[1], 0);
      assert b == [b[0], b[1]];
    } else if |b| >= 3 {
      SextetsRoundTrip(b[3..]);
      FromQuad(First(b[0]), Second(b[0], b[1]), Third(b[1], b[2]), Fourth(b[2]), ToSextets(b[3..]), b[3..]);
      RegroupHi(b[0], b[1]);
      RegroupMid(b[0], b[1], b[2]);
      RegroupLo(b[1], b[2]);
      assert [b[0], b[1], b[2]] + b[3..] == b;
    }
  }

  // ---------------------------------------------------------------- text

  function Spell(v: seq<sextet>): string {
    if v == [] then "" else [Symbol(v[0])] + Spell(v[1..])
  }

  /** Reads symbols, skipping line breaks; any other character is an error. */
  function Read(s: string): Option<seq<sextet>> {
    if s == "" then Some([])
    else if s[0] == '\r' || s[0] == '\n' then Read(s[1..])
    else
      var v, rest := ValueOf(s[0]), Read(s[1..]);
      if v.None? || rest.None? then None else Some([v.value] + rest.value)
  }

  function EncodeToString(b: seq<byte>): string {
    Spell(ToSextets(b))
  }

  function DecodeString(s: string): Option<seq<byte>> {
    var v := Read(s);
    if v.None? then None else FromSextets(v.value)
  }

  lemma {:induction false} ReadOfSpell(v: seq<sextet>)
    ensures Read(Spell(v)) == Some(v) && '$' !in Spell(v)
  {
    if v != [] {
      ValueOfSymbol(v[0]);
      ReadOfSpell(v[1..]);
      assert Spell(v)[1..] == Spell(v[1..]);
      assert [v[0]] + v[1..] == v;
    }
  }

  /** Decoding inverts encoding, and the text holds no dollar sign. */
  lemma Base64RoundTrip(b: seq<byte>)
    ensures DecodeString(EncodeToString(b)) == Some(b) && '$' !in EncodeToString(b)
  {
    SextetsRoundTrip(b);
    ReadOfSpell(ToSextets(b));
  }

  // ---------------------------------------------------------------- the text, symbol by symbol

  /** The base64 alphabet, table 1 of RFC 4648. */
  lemma Alphabet(v: sextet)
    ensures v < 26 ==> Symbol(v) == "ABCDEFGHIJKLMNOPQRSTUVWXYZ"[v]
    ensures 26 <= v < 52 ==> Symbol(v) == "abcdefghijklmnopqrstuvwxyz"[v - 26]
    ensures 52 <= v ==> Symbol(v) == "0123456789+/"[v - 52]
  {
  }

  /** Byte k, or zero after the end. */
  function ByteAt(b: seq<byte>, k: nat): nat {
    if k < |b| then b[k] as int else 0
  }

  /** Three bytes, from byte 3g on, as one number. */
  function Triple(b: seq<byte>, g: nat): nat {
    65_536 * ByteAt(b, 3 * g) + 256 * ByteAt(b, 3 * g + 1) + ByteAt(b, 3 * g + 2)
  }

  /** Digit j, 0 to 3, of a number of four digits to the base 64, the highest first. */
  function DigitOf(n: nat, j: nat): nat {
    if j == 0 then n / 262_144 % 64 else if j == 1 then n / 4_096 % 64 else if j == 2 then n / 64 % 64 else n % 64
  }

  lemma Digits(w: sextet, x: sextet, y: sextet, z: sextet)
    ensures var n: nat := 262_144 * (w as int) + 4_096 * (x as int) + 64 * (y as int) + z as int;
      DigitOf(n, 0) == w && DigitOf(n, 1) == x && DigitOf(n, 2) == y && DigitOf(n, 3) == z
  {
    var hi: nat := 64 * (w as int) + x as int;
    var mid := 64 * hi + y as int;
    var n := 64 * mid + z as int;
    assert n / 64 == mid && n / 4_096 == hi && n / 262_144 == w as int;
  }

  lemma Regrouped(a: byte, b: byte, c: byte)
    ensures 262_144 * (First(a) as int) + 4_096 * (Second(a, b) as int) + 64 * (Third(b, c) as int) +
            Fourth(c) as int == 65_536 * (a as int) + 256 * (b as int) + c as int
  {
  }

  lemma QuadDigits(a: byte, b: byte, c: byte)
    ensures var n: nat := 65_536 * (a as int) + 256 * (b as int) + c as int;
      && DigitOf(n, 0) == First(a) && DigitOf(n, 1) == Second(a, b)
      && DigitOf(n, 2) == Third(b, c) && DigitOf(n, 3) == Fourth(c)
  {
    Regrouped(a, b, c);
    Digits(First(a), Second(a, b), Third(b, c), Fourth(c));
  }

  lemma {:induction false} SextetAt(b: seq<byte>, i: nat)
    ensures |ToSextets(b)| == (4 * |b| + 2) / 3
    ensures i < |ToSextets(b)| ==> ToSextets(b)[i] == DigitOf(Triple(b, i / 4), i % 4)
  {
    if |b| > 0 {
      QuadDigits(ByteAt(b, 0), ByteAt(b, 1), ByteAt(b, 2));
    }
    if |b| >= 3 {
      SextetAt(b[3..], if i >= 4 then i - 4 else 0);
      if i >= 4 {
        TripleShift(b, i);
      }
    }
  }

  lemma TripleShift(b: seq<byte>, i: nat)
    requires |b| >= 3 && i >= 4
    ensures Triple(b[3..], (i - 4) / 4) == Triple(b, i / 4) && (i - 4) % 4 == i % 4
  {
    assert (i - 4) / 4 == i / 4 - 1;
  }

  lemma {:induction false} SpellAt(v: seq<sextet>, i: nat)
    ensures |Spell(v)| == |v| && (i < |v| ==> Spell(v)[i] == Symbol(v[i]))
  {
    if v != [] {
      SpellAt(v[1..], if i > 0 then i - 1 else 0);
    }
  }

  /** Every three bytes become four symbols, one for each six bits from the highest on; at the end one byte
      becomes two symbols and two bytes three, filled up with zero bits. */
  lemma EncodesBits(b: seq<byte>, i: nat)
    ensures |EncodeToString(b)| == (4 * |b| + 2) / 3
    ensures i < |EncodeToString(b)| ==>
      DigitOf(Triple(b, i / 4), i % 4) < 64 && EncodeToString(b)[i] == Symbol(DigitOf(Triple(b, i / 4), i % 4))
  {
    SextetAt(b, i);
    SpellAt(ToSextets(b), i);
  }

  // ---------------------------------------------------------------- which texts decode

  /** Symbols of the alphabet in a text. */
  function Symbols(s: string): nat {
    if s == "" then 0 else (if ValueOf(s[0]).Some? then 1 else 0) + Symbols(s[1..])
  }

  lemma {:induction false} ReadIff(s: string)
    ensures Read(s).Some? <==> forall i :: 0 <= i < |s| ==> s[i] == '\r' || s[i] == '\n' || ValueOf(s[i]).Some?
    ensures Read(s).Some? ==> |Read(s).value| == Symbols(s)
  {
    if s != "" {
      ReadIff(s[1..]);
      assert forall i :: 0 < i < |s| ==> s[i] == s[1..][i - 1];
    }
  }

  lemma {:induction false} FromSextetsIff(v: seq<sextet>)
    ensures FromSextets(v).Some? <==> |v| % 4 != 1
    ensures FromSextets(v).Some? ==> |FromSextets(v).value| == 3 * |v| / 4
  {
    if |v| >= 4 {
      FromSextetsIff(v[4..]);
      assert |v| % 4 == (|v| - 4) % 4 && 3 * (|v| - 4) / 4 == 3 * |v| / 4 - 3;
    }
  }

  /** A text decodes exactly when it holds nothing but symbols and line breaks, and not one symbol beyond a
      multiple of four; each four symbols give three bytes. */
  lemma DecodesIff(s: string)
    ensures DecodeString(s).Some? <==>
      Symbols(s) % 4 != 1 && forall i :: 0 <= i < |s| ==> s[i] == '\r' || s[i] == '\n' || ValueOf(s[i]).Some?
    ensures DecodeString(s).Some? ==> |DecodeString(s).value| == 3 * Symbols(s) / 4
  {
    ReadIff(s);
    if Read(s).Some? {
      FromSextetsIff(Read(s).value);
    }
  }
}
