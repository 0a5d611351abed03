/** String and character literals: how a payload is escaped for output, how the lexer reads escapes, and exactly which
    payloads survive the trip. Payloads are strings of bytes, each byte a char below 256. */
module LiteralEscape {
  import opened Basics

  predicate IsByte(c: char) {
    c as int < 256
  }

  predicate IsPayload(p: string) {
    forall i :: 0 <= i < |p| ==> IsByte(p[i])
  }

  function Byte(n: nat): (c: char)
    ensures IsByte(c) && (n < 256 ==> c as int == n)
  {
    (n % 256) as char
  }

  predicate IsHex(c: char) {
    '0' <= c <= '9' || 'a' <= c <= 'f' || 'A' <= c <= 'F'
  }

  predicate IsOctal(c: char) {
    '0' <= c <= '7'
  }

  function HexValue(c: char): (v: nat)
    requires IsHex(c)
    ensures v < 16
  {
    if '0' <= c <= '9' then c as int - '0' as int
    else if 'a' <= c <= 'f' then 10 + (c as int - 'a' as int)
    else 10 + (c as int - 'A' as int)
  }

  const BEL := 7 as char
  const BS := 8 as char
  const VT := 11 as char
  const FF := 12 as char
  const ESC := 27 as char

  // ---------------------------------------------------------------- escaping

  function HexDigitOf(n: nat): char {
    if n % 16 < 10 then ('0' as int + n % 16) as char else ('A' as int + n % 16 - 10) as char
  }

  /** Bytes that have neither a letter escape nor a printable form. */
  predicate HexEscaped(b: char) {
    (b as int < 0x20 && !(7 <= b as int <= 13)) || b as int >= 0x7F
  }

  function EscapeByte(b: char, isChar: bool): string {
    if b == BEL then "\\a" else if b == BS then "\\b" else if b == FF then "\\f" else if b == '\n' then "\\n"
    else if b == '\r' then "\\r" else if b == '\t' then "\\t" else if b == VT then "\\v" else if b == '\\' then "\\\\"
    else if b == '\"' then (if isChar then "\"" else "\\\"")
    else if b == '\'' then (if isChar then "\\'" else "'")
    else if HexEscaped(b) then "\\x" + [HexDigitOf(b as int / 16), HexDigitOf(b as int)]
    else [b]
  }

  function Escape(payload: string, isChar: bool): string {
    if payload == "" then "" else EscapeByte(payload[0], isChar) + Escape(payload[1..], isChar)
  }

  lemma EscapeSnoc(p: string, b: char, isChar: bool)
    ensures Escape(p + [b], isChar) == Escape(p, isChar) + EscapeByte(b, isChar)
  {
    hide EscapeByte;
    if p == "" {
      assert p + [b] == [b] && [b][1..] == "";
      assert Escape([b], isChar) == EscapeByte(b, isChar) + "";
    } else {
      assert (p + [b])[1..] == p[1..] + [b];
      EscapeSnoc(p[1..], b, isChar);
    }
  }

  /** The loop over the bytes of a payload. */
  method EscapeLiteralPayload(payload: string, isChar: bool) returns (escaped: string)
    ensures escaped == Escape(payload, isChar)
  {
    escaped := "";
    var i := 0;
    while i < |payload|
      invariant 0 <= i <= |payload|
      invariant escaped == Escape(payload[..i], isChar)
    {
      var b := payload[i];
      assert payload[..i + 1] == payload[..i] + [b];
      EscapeSnoc(payload[..i], b, isChar);
      if b == BEL {
        escaped := escaped + "\\a";
      } else if b == BS {
        escaped := escaped + "\\b";
      } else if b == FF {
        escaped := escaped + "\\f";
      } else if b == '\n' {
        escaped := escaped + "\\n";
      } else if b == '\r' {
        escaped := escaped + "\\r";
      } else if b == '\t' {
        escaped := escaped + "\\t";
      } else if b == VT {
        escaped := escaped + "\\v";
      } else if b == '\\' {
        escaped := escaped + "\\\\";
      } else if b == '\"' {
        escaped := escaped + if isChar then "\"" else "\\\"";
      } else if b == '\'' {
        escaped := escaped + if isChar then "\\'" else "'";
      } else if b as int < 0x20 || b as int >= 0x7F {
        escaped := escaped + ("\\x" + [HexDigitOf(b as int / 16), HexDigitOf(b as int)]);
      } else {
        escaped := escaped + [b];
      }
      i := i + 1;
    }
    assert payload[..i] == payload;
  }

  const Upper := "0123456789ABCDEF"
  const Lower := "0123456789abcdef"

  /** The hexadecimal digits and their values, in capital and small letters. */
  lemma HexDigitsByPlace(i: nat)
    requires i < 16
    ensures IsHex(Upper[i]) && IsHex(Lower[i]) && HexValue(Upper[i]) == HexValue(Lower[i]) == i && HexDigitOf(i) == Upper[i]
    ensures forall c :: IsHex(c) ==> c == Upper[HexValue(c)] || c == Lower[HexValue(c)]
  {
  }

  /** How each byte is written: the visible ones as they are but for the backslash and the quote in use, seven controls by
      their letters, and all others by two capital hexadecimal digits. */
  lemma BytesAreWritten(b: char, isChar: bool)
    requires IsByte(b)
    ensures 32 <= b as int < 127 && b != '\\' && b != Quote(isChar) ==> EscapeByte(b, isChar) == [b]
    ensures b == '\\' || b == Quote(isChar) ==> EscapeByte(b, isChar) == ['\\', b]
    ensures 7 <= b as int <= 13 ==> EscapeByte(b, isChar) == ['\\', "abtnvfr"[b as int - 7]]
    ensures b as int < 7 || 13 < b as int < 32 || 127 <= b as int ==>
              EscapeByte(b, isChar) == ['\\', 'x', Upper[b as int / 16], Upper[b as int % 16]]
    ensures HexEscaped(b) <==> b as int < 7 || 13 < b as int < 32 || 127 <= b as int
  {
    if HexEscaped(b) {
      HexDigitsByPlace(b as int / 16);
      HexDigitsByPlace(b as int % 16);
    }
  }

  // ---------------------------------------------------------------- reading escapes

  /** Hexadecimal digits, as many as there are, into a 32-bit value. */
  function ReadHex(s: string, value: nat): (r: (nat, string))
    ensures |r.1| <= |s|
  {
    if s == "" || !IsHex(s[0]) then (value, s)
    else ReadHex(s[1..], (value * 16 + HexValue(s[0])) % 0x1_0000_0000)
  }

  /** Exactly n hexadecimal digits. */
  function ReadHexN(s: string, n: nat, value: nat): (r: Option<(nat, string)>)
    ensures r.Some? ==> |r.value.1| <= |s|
  {
    if n == 0 then Some((value, s))
    else if s == "" || !IsHex(s[0]) then None
    else ReadHexN(s[1..], n - 1, (value * 16 + HexValue(s[0])) % 0x1_0000_0000)
  }

  /** At most n further octal digits. */
  function ReadOctal(s: string, n: nat, value: nat): (r: (nat, string))
    ensures |r.1| <= |s|
  {
    if n == 0 || s == "" || !IsOctal(s[0]) then (value, s)
    else ReadOctal(s[1..], n - 1, value * 8 + (s[0] as int - '0' as int))
  }

  function EncodeUtf8(cp: nat): Option<string> {
    if cp > 0x10FFFF then None
    else if cp <= 0x7F then Some([Byte(cp)])
    else if cp <= 0x7FF then Some([Byte(0xC0 + cp / 64), Byte(0x80 + cp % 64)])
    else if cp <= 0xFFFF then
      if 0xD800 <= cp <= 0xDFFF then None
      else Some([Byte(0xE0 + cp / 4096), Byte(0x80 + cp / 64 % 64), Byte(0x80 + cp % 64)])
    else Some([Byte(0xF0 + cp / 262144), Byte(0x80 + cp / 4096 % 64), Byte(0x80 + cp / 64 % 64), Byte(0x80 + cp % 64)])
  }

  function Utf8Then(r: Option<(nat, string)>): Option<(string, string)> {
    match r
    case None => None
    case Some((cp, rest)) =>
      match EncodeUtf8(cp)
      case None => None
      case Some(bytes) => Some((bytes, rest))
  }

  /** The escape after a backslash: its bytes and what follows, or None for a lexing error. */
  function ReadEscape(s: string): (r: Option<(string, string)>)
    ensures r.Some? ==> |r.value.1| < |s|
  {
    if s == "" || s[0] == '\0' then None
    else
      var c, rest := s[0], s[1..];
      if c == 'a' then Some(([BEL], rest)) else if c == 'b' then Some(([BS], rest))
      else if c == 'f' then Some(([FF], rest)) else if c == 'n' then Some(("\n", rest))
      else if c == 'r' then Some(("\r", rest)) else if c == 't' then Some(("\t", rest))
      else if c == 'v' then Some(([VT], rest)) else if c == 'e' || c == 'E' then Some(([ESC], rest))
      else if c == 'x' then
        (if rest == "" || !IsHex(rest[0]) then None
         else var (value, rest') := ReadHex(rest, 0); Some(([Byte(value % 256)], rest')))
      else if c == 'u' then Utf8Then(ReadHexN(rest, 4, 0))
      else if c == 'U' then Utf8Then(ReadHexN(rest, 8, 0))
      else if IsOctal(c) then
        (var (value, rest') := ReadOctal(rest, 2, c as int - '0' as int); Some(([Byte(value % 256)], rest')))
      else Some(([c], rest))
  }

  /** The text of a literal after its opening quote: the payload and what follows the closing quote. */
  function ReadBody(s: string, quote: char): (r: Option<(string, string)>)
    ensures r.Some? ==> |r.value.1| < |s|
    decreases |s|
  {
    if s == "" then None
    else if s[0] == quote then Some(("", s[1..]))
    else if s[0] == '\0' || s[0] == '\n' then None
    else if s[0] == '\\' then
      match ReadEscape(s[1..])
      case None => None
      case Some((bytes, rest)) => Prepend(bytes, ReadBody(rest, quote))
    else Prepend([s[0]], ReadBody(s[1..], quote))
  }

  /** Where a body stops that has no closing quote on its line: at the line feed, or at the end; None if it closes, or
      breaks off at a bad escape. */
  function BodyStop(s: string, quote: char): (r: Option<string>)
    ensures r.Some? ==> |r.value| <= |s|
    decreases |s|
  {
    if s == "" then Some(s)
    else if s[0] == quote then None
    else if s[0] == '\0' || s[0] == '\n' then Some(s)
    else if s[0] == '\\' then
      match ReadEscape(s[1..])
      case None => None
      case Some((_, rest)) => BodyStop(rest, quote)
    else BodyStop(s[1..], quote)
  }

  function Prepend(bytes: string, r: Option<(string, string)>): Option<(string, string)> {
    match r
    case None => None
    case Some((payload, rest)) => Some((bytes + payload, rest))
  }

  // ---------------------------------------------------------------- what escapes mean

  /** The letter escapes; any other character but x, u, U and the octal digits stands for itself. */
  lemma LetterEscapes(c: char, rest: string)
    ensures forall i :: 0 <= i < 7 ==> ReadEscape(["abtnvfr"[i]] + rest) == Some(([(7 + i) as char], rest))
    ensures ReadEscape("e" + rest) == ReadEscape("E" + rest) == Some(([27 as char], rest))
    ensures c !in "abtnvfreExuU01234567" && c != '\0' ==> ReadEscape([c] + rest) == Some(([c], rest))
    ensures ReadEscape("") == None && ReadEscape("\0" + rest) == None
  {
    assert ([c] + rest)[1..] == rest && ("e" + rest)[1..] == rest && ("E" + rest)[1..] == rest;
    forall i | 0 <= i < 7 ensures ReadEscape(["abtnvfr"[i]] + rest) == Some(([(7 + i) as char], rest)) {
      assert (["abtnvfr"[i]] + rest)[1..] == rest;
    }
  }

  /** One, two or three octal digits, and no fourth, are a number in base 8 modulo 256. */
  lemma OctalEscapes(a: char, b: char, c: char, rest: string)
    requires 48 <= a as int <= 55 && 48 <= b as int <= 55 && 48 <= c as int <= 55
    ensures ReadEscape([a] + ([b] + ([c] + rest))) == Some(([Byte((64 * OctalOf(a) + 8 * OctalOf(b) + OctalOf(c)) % 256)], rest))
    ensures rest == "" || rest[0] !in "01234567" ==>
              ReadEscape([a] + ([b] + rest)) == Some(([Byte(8 * OctalOf(a) + OctalOf(b))], rest))
              && ReadEscape([a] + rest) == Some(([Byte(OctalOf(a))], rest))
  {
    hide ReadEscape, ReadOctal, Byte;
    var one, two := OctalOf(a), 8 * OctalOf(a) + OctalOf(b);
    OctalStart(a, [b] + ([c] + rest));
    OctalStart(a, [b] + rest);
    OctalStart(a, rest);
    OneOctalDigit(b, [c] + rest, 1, one);
    OneOctalDigit(c, rest, 0, two);
    OneOctalDigit(b, rest, 1, one);
    NoOctalDigit(rest, 0, 8 * two + OctalOf(c));
    NoOctalDigit(rest, 1, two);
    NoOctalDigit(rest, 2, one);
  }

  lemma OctalStart(a: char, s: string)
    requires IsOctal(a)
    ensures var r := ReadOctal(s, 2, OctalOf(a)); ReadEscape([a] + s) == Some(([Byte(r.0 % 256)], r.1))
  {
    hide EncodeUtf8, ReadHex, ReadHexN, ReadOctal, HexValue, Byte;
    assert ([a] + s)[1..] == s;
  }

  lemma OneOctalDigit(d: char, s: string, n: nat, value: nat)
    requires IsOctal(d)
    ensures ReadOctal([d] + s, n + 1, value) == ReadOctal(s, n, 8 * value + OctalOf(d))
  {
    assert ([d] + s)[1..] == s;
  }

  lemma NoOctalDigit(s: string, n: nat, value: nat)
    ensures n == 0 || s == "" || s[0] !in "01234567" ==> ReadOctal(s, n, value) == (value, s)
  {
    OctalDigits();
  }

  function OctalOf(c: char): nat
    requires 48 <= c as int <= 55
  {
    c as int - 48
  }

  lemma OctalDigits()
    ensures forall c :: IsOctal(c) ==> c in "01234567"
  {
    forall c | IsOctal(c) ensures c in "01234567" {
      assert "01234567"[c as int - 48] == c;
    }
  }

  /** A hexadecimal escape takes all hexadecimal digits there are, at least one, and is the byte of the last two. */
  lemma HexEscapes(digits: string, rest: string)
    requires forall i :: 0 <= i < |digits| ==> IsHex(digits[i])
    requires rest == "" || !IsHex(rest[0])
    ensures digits == "" ==> ReadEscape("x" + (digits + rest)) == None
    ensures |digits| == 1 ==> ReadEscape("x" + (digits + rest)) == Some(([Byte(HexValue(digits[0]))], rest))
    ensures |digits| >= 2 ==>
              ReadEscape("x" + (digits + rest))
              == Some(([Byte(16 * HexValue(digits[|digits| - 2]) + HexValue(digits[|digits| - 1]))], rest))
  {
    var text := digits + rest;
    assert ("x" + text)[1..] == text;
    if digits == "" {
      assert text == rest;
    } else {
      LowByte(digits, rest, 0);
    }
  }

  /** The last two digits make the low byte, whatever was accumulated before. */
  lemma {:induction false} LowByte(digits: string, rest: string, value: nat)
    requires forall i :: 0 <= i < |digits| ==> IsHex(digits[i])
    requires rest == "" || !IsHex(rest[0])
    ensures var v := ReadHex(digits + rest, value).0;
            ReadHex(digits + rest, value).1 == rest && v % 256 == if digits == "" then value % 256
                                    else if |digits| == 1 then (16 * value + HexValue(digits[0])) % 256
                                    else 16 * HexValue(digits[|digits| - 2]) + HexValue(digits[|digits| - 1])
  {
    hide HexValue;
    if digits == "" {
      assert digits + rest == rest;
    } else {
      assert (digits + rest)[1..] == digits[1..] + rest;
      var next := (value * 16 + HexValue(digits[0])) % 0x1_0000_0000;
      LowByte(digits[1..], rest, next);
      LowBits(value * 16 + HexValue(digits[0]), next);
      if |digits| == 2 {
        LowNibble(value, HexValue(digits[0]), next, HexValue(digits[1]));
      }
    }
  }

  lemma LowBits(x: nat, next: nat)
    requires next == x % 0x1_0000_0000
    ensures next % 256 == x % 256 && next % 16 == x % 16
  {
    var k := x / 0x1_0000_0000;
    LowByteStays(next, 0x100_0000 * k);
    LowNibbleStays(next, 0x1000_0000 * k);
  }

  lemma LowByteStays(x: nat, k: nat)
    ensures (x + 256 * k) % 256 == x % 256
  {
  }

  lemma LowNibbleStays(x: nat, k: nat)
    ensures (x + 16 * k) % 16 == x % 16
  {
  }

  lemma LowNibble(value: nat, h: nat, next: nat, d: nat)
    requires h < 16 && d < 16 && next == (value * 16 + h) % 0x1_0000_0000
    ensures (16 * next + d) % 256 == 16 * h + d
  {
    LowBits(value * 16 + h, next);
    assert (value * 16 + h) % 16 == h;
    var k := next / 16;
    assert 16 * next + d == 256 * k + (16 * h + d);
  }

  /** \u takes exactly four digits and \U exactly eight, as a number in base 16, written in UTF-8. */
  lemma UniversalEscapes(d: string, e: string, rest: string)
    requires |d| == 4 && |e| == 4 && forall i :: 0 <= i < 4 ==> IsHex(d[i]) && IsHex(e[i])
    ensures ReadEscape("u" + (d + rest)) == Utf8Then(Some((Four(d), rest)))
    ensures ReadEscape("U" + (d + (e + rest))) == Utf8Then(Some((65536 * Four(d) + Four(e), rest)))
  {
    hide IsHex, HexValue, EncodeUtf8;
    assert ("u" + (d + rest))[1..] == d + rest && ("U" + (d + (e + rest)))[1..] == d + (e + rest);
    FourDigits(d, rest, 0, 0);
    FourDigits(d, e + rest, 4, 0);
    FourDigits(e, rest, 0, Four(d));
  }

  function Four(d: string): (n: nat)
    requires |d| == 4 && forall i :: 0 <= i < 4 ==> IsHex(d[i])
    ensures n < 65536
  {
    4096 * HexValue(d[0]) + 256 * HexValue(d[1]) + 16 * HexValue(d[2]) + HexValue(d[3])
  }

  lemma FourDigits(d: string, rest: string, more: nat, value: nat)
    requires |d| == 4 && (forall i :: 0 <= i < 4 ==> IsHex(d[i])) && value < 65536
    ensures ReadHexN(d + rest, more + 4, value) == ReadHexN(rest, more, 65536 * value + Four(d))
  {
    hide IsHex, HexValue, ReadHexN;
    var v1 := value * 16 + HexValue(d[0]);
    var v2 := v1 * 16 + HexValue(d[1]);
    var v3 := v2 * 16 + HexValue(d[2]);
    assert d + rest == [d[0]] + ([d[1]] + ([d[2]] + ([d[3]] + rest)));
    OneHexDigit(d[0], [d[1]] + ([d[2]] + ([d[3]] + rest)), more + 3, value);
    OneHexDigit(d[1], [d[2]] + ([d[3]] + rest), more + 2, v1);
    OneHexDigit(d[2], [d[3]] + rest, more + 1, v2);
    OneHexDigit(d[3], rest, more, v3);
  }

  lemma OneHexDigit(d: char, s: string, n: nat, value: nat)
    requires IsHex(d) && value * 16 + 16 <= 0x1_0000_0000
    ensures ReadHexN([d] + s, n + 1, value) == ReadHexN(s, n, value * 16 + HexValue(d))
  {
    assert ([d] + s)[1..] == s;
  }

  /** The number UTF-8 bytes stand for: the payload bits of the lead byte and of the continuation bytes behind it. */
  function DecodeUtf8(s: string): nat
    requires s != "" && |s| <= 4 && forall i :: 0 < i < |s| ==> 0x80 <= s[i] as int < 0xC0
  {
    if |s| == 1 then s[0] as int
    else if |s| == 2 then 64 * (s[0] as int % 32) + s[1] as int % 64
    else if |s| == 3 then 4096 * (s[0] as int % 16) + 64 * (s[1] as int % 64) + s[2] as int % 64
    else 262144 * (s[0] as int % 8) + 4096 * (s[1] as int % 64) + 64 * (s[2] as int % 64) + s[3] as int % 64
  }

  /** Every code point but the surrogates has bytes; their number shows in the lead byte and is the least possible, and they
      decode to the code point. */
  lemma Utf8IsDecoded(cp: nat)
    ensures EncodeUtf8(cp).Some? <==> cp <= 0x10FFFF && !(0xD800 <= cp <= 0xDFFF)
    ensures EncodeUtf8(cp).Some? ==> IsUtf8Of(EncodeUtf8(cp).value, cp)
  {
    hide IsUtf8Of, EncodeUtf8;
    NoUtf8(cp);
    if cp < 0x80 {
      OneByte(cp);
    } else if cp < 0x800 {
      TwoBytes(cp);
    } else if cp < 0x10000 {
      if !(0xD800 <= cp <= 0xDFFF) {
        ThreeBytes(cp);
      }
    } else if cp <= 0x10FFFF {
      FourBytes(cp);
    }
  }

  lemma NoUtf8(cp: nat)
    ensures cp > 0x10FFFF || 0xD800 <= cp <= 0xDFFF ==> EncodeUtf8(cp) == None
  {
  }

  predicate IsUtf8Of(s: string, cp: nat) {
    && s != "" && |s| <= 4 && IsPayload(s) && (forall i :: 0 < i < |s| ==> 0x80 <= s[i] as int < 0xC0)
    && DecodeUtf8(s) == cp
    && |s| == (if cp < 0x80 then 1 else if cp < 0x800 then 2 else if cp < 0x10000 then 3 else 4)
    && (|s| == 1 ==> s[0] as int < 0x80) && (|s| == 2 ==> 0xC0 <= s[0] as int < 0xE0)
    && (|s| == 3 ==> 0xE0 <= s[0] as int < 0xF0) && (|s| == 4 ==> 0xF0 <= s[0] as int < 0xF8)
  }

  lemma OneByte(cp: nat)
    requires cp < 0x80
    ensures EncodeUtf8(cp).Some? && IsUtf8Of(EncodeUtf8(cp).value, cp)
  {
  }

  lemma TwoBytes(cp: nat)
    requires 0x80 <= cp < 0x800
    ensures EncodeUtf8(cp).Some? && IsUtf8Of(EncodeUtf8(cp).value, cp)
  {
    assert (0xC0 + cp / 64) % 32 == cp / 64 && (0x80 + cp % 64) % 64 == cp % 64;
  }

  lemma ThreeBytes(cp: nat)
    requires 0x800 <= cp < 0x10000 && !(0xD800 <= cp <= 0xDFFF)
    ensures EncodeUtf8(cp).Some? && IsUtf8Of(EncodeUtf8(cp).value, cp)
  {
    hide IsUtf8Of;
    Sextets(cp);
    ThreeSextets(cp / 4096, cp / 64 % 64, cp % 64);
  }

  lemma FourBytes(cp: nat)
    requires 0x10000 <= cp <= 0x10FFFF
    ensures EncodeUtf8(cp).Some? && IsUtf8Of(EncodeUtf8(cp).value, cp)
  {
    hide IsUtf8Of;
    Sextets(cp);
    FourSextets(cp / 262144, cp / 4096 % 64, cp / 64 % 64, cp % 64);
  }

  lemma Sextets(cp: nat)
    ensures cp == 64 * (cp / 64) + cp % 64
    ensures cp == 4096 * (cp / 4096) + 64 * (cp / 64 % 64) + cp % 64
    ensures cp == 262144 * (cp / 262144) + 4096 * (cp / 4096 % 64) + 64 * (cp / 64 % 64) + cp % 64
  {
    assert cp / 64 / 64 == cp / 4096 && cp / 4096 / 64 == cp / 262144;
  }

  lemma ThreeSextets(a: nat, c: nat, d: nat)
    requires a < 16 && c < 64 && d < 64 && 0x800 <= 4096 * a + 64 * c + d
    ensures IsUtf8Of([Byte(0xE0 + a), Byte(0x80 + c), Byte(0x80 + d)], 4096 * a + 64 * c + d)
  {
    assert (0xE0 + a) % 16 == a && (0x80 + c) % 64 == c && (0x80 + d) % 64 == d;
  }

  lemma FourSextets(a: nat, b: nat, c: nat, d: nat)
    requires a < 5 && b < 64 && c < 64 && d < 64 && 0x10000 <= 262144 * a + 4096 * b + 64 * c + d
    ensures IsUtf8Of([Byte(0xF0 + a), Byte(0x80 + b), Byte(0x80 + c), Byte(0x80 + d)], 262144 * a + 4096 * b + 64 * c + d)
  {
    assert (0xF0 + a) % 8 == a && (0x80 + b) % 64 == b && (0x80 + c) % 64 == c && (0x80 + d) % 64 == d;
  }

  /** A body of ordinary characters ends at its quote; without one it stops at the line feed, or at the end. */
  lemma {:induction false} OrdinaryBody(body: string, quote: char, rest: string)
    requires forall i :: 0 <= i < |body| ==> body[i] != quote && body[i] !in "\0\n\\"
    requires quote !in "\0\n\\"
    ensures ReadBody(body + ([quote] + rest), quote) == Some((body, rest))
    ensures ReadBody(body + ("\n" + rest), quote) == None && BodyStop(body + ("\n" + rest), quote) == Some("\n" + rest)
    ensures ReadBody(body, quote) == None && BodyStop(body, quote) == Some("")
  {
    hide ReadEscape;
    assert ([quote] + rest)[1..] == rest;
    if body == "" {
      assert body + ([quote] + rest) == [quote] + rest && body + ("\n" + rest) == "\n" + rest;
    } else {
      OrdinaryBody(body[1..], quote, rest);
      assert (body + ([quote] + rest))[1..] == body[1..] + ([quote] + rest);
      assert (body + ("\n" + rest))[1..] == body[1..] + ("\n" + rest);
      assert body[0] != '\\' && body[0] != '\n' && body[0] != '\0' by { assert '\\' in "\0\n\\" && '\n' in "\0\n\\" && '\0' in "\0\n\\"; }
      assert [body[0]] + body[1..] == body;
    }
  }

  /** A backslash hands on to the escape behind it. */
  lemma EscapeInBody(s: string, quote: char)
    requires quote != '\\'
    ensures ReadEscape(s) == None ==> ReadBody("\\" + s, quote) == None && BodyStop("\\" + s, quote) == None
    ensures ReadEscape(s).Some? ==>
              var e := ReadEscape(s).value;
              ReadBody("\\" + s, quote) == Prepend(e.0, ReadBody(e.1, quote)) && BodyStop("\\" + s, quote) == BodyStop(e.1, quote)
  {
    assert ("\\" + s)[1..] == s;
  }

  // ---------------------------------------------------------------- what comes back

  /** How many hexadecimal digits a payload starts with. */
  function HexRun(p: string): (k: nat)
    ensures k <= |p|
  {
    if p == "" || !IsHex(p[0]) then 0 else 1 + HexRun(p[1..])
  }

  /** A hexadecimal value continued by further digits, as the lexer accumulates it. */
  function Continued(value: nat, digits: string): nat
    decreases digits
  {
    if digits == "" || !IsHex(digits[0]) then value
    else Continued((value * 16 + HexValue(digits[0])) % 0x1_0000_0000, digits[1..])
  }

  /** The payload the lexer reads back: the escape of a hex-escaped byte swallows the hexadecimal digits after it. */
  function Reread(p: string): string {
    if p == "" then ""
    else if HexEscaped(p[0]) then
      var k := HexRun(p[1..]);
      [Byte(Continued(p[0] as int, p[1..][..k]) % 256)] + Reread(p[1..][k..])
    else [p[0]] + Reread(p[1..])
  }

  /** No hex-escaped byte is followed by a hexadecimal digit. */
  predicate Clean(p: string) {
    p == "" || ((HexEscaped(p[0]) && |p| > 1 ==> !IsHex(p[1])) && Clean(p[1..]))
  }

  lemma CleanByIndex(p: string)
    ensures Clean(p) <==> forall i :: 0 <= i < |p| - 1 && HexEscaped(p[i]) ==> !IsHex(p[i + 1])
  {
    hide HexEscaped, IsHex;
    if p != "" {
      CleanByIndex(p[1..]);
      if forall i :: 0 <= i < |p| - 1 && HexEscaped(p[i]) ==> !IsHex(p[i + 1]) {
        forall i | 0 <= i < |p[1..]| - 1 && HexEscaped(p[1..][i]) ensures !IsHex(p[1..][i + 1]) {
          assert p[1..][i] == p[i + 1];
        }
      }
      if Clean(p) {
        forall i | 0 <= i < |p| - 1 && HexEscaped(p[i]) ensures !IsHex(p[i + 1]) {
          if i > 0 {
            assert p[1..][i - 1] == p[i] && p[1..][i] == p[i + 1];
          }
        }
      }
    }
  }

  function Quote(isChar: bool): char {
    if isChar then '\'' else '\"'
  }

  /** Every byte but a hex-escaped one is read back by itself, whatever follows. */
  lemma ReadPlainByte(b: char, isChar: bool, s: string)
    requires IsByte(b) && !HexEscaped(b)
    ensures ReadBody(EscapeByte(b, isChar) + s, Quote(isChar)) == Prepend([b], ReadBody(s, Quote(isChar)))
  {
    hide Prepend;
    var t := EscapeByte(b, isChar) + s;
    if |EscapeByte(b, isChar)| == 1 {
      assert t[1..] == s;
    } else {
      assert t[1..][1..] == s;
    }
  }

  lemma HexDigitsRead(b: char)
    requires IsByte(b)
    ensures var hi, lo := HexDigitOf(b as int / 16), HexDigitOf(b as int);
            IsHex(hi) && IsHex(lo) && HexValue(hi) * 16 + HexValue(lo) == b as int
  {
    assert b as int == b as int / 16 * 16 + b as int % 16;
  }

  lemma HexEscapeValue(b: char, s: string)
    requires IsByte(b)
    ensures ReadHex([HexDigitOf(b as int / 16), HexDigitOf(b as int)] + s, 0) == ReadHex(s, b as int)
  {
    hide HexDigitOf, HexValue, IsHex;
    var hi, lo := HexDigitOf(b as int / 16), HexDigitOf(b as int);
    HexDigitsRead(b);
    var t := [hi, lo] + s;
    assert t[1..] == [lo] + s && ([lo] + s)[1..] == s;
    assert ReadHex(t, 0) == ReadHex([lo] + s, HexValue(hi));
  }

  lemma ReadHexByte(b: char, isChar: bool, s: string)
    requires IsByte(b) && HexEscaped(b)
    ensures var (value, rest) := ReadHex(s, b as int);
            ReadBody(EscapeByte(b, isChar) + s, Quote(isChar)) == Prepend([Byte(value % 256)], ReadBody(rest, Quote(isChar)))
  {
    hide Prepend, HexDigitOf, ReadHex, Byte, HexValue, IsHex;
    var hi, lo := HexDigitOf(b as int / 16), HexDigitOf(b as int);
    var t := EscapeByte(b, isChar) + s;
    assert t == "\\x" + ([hi, lo] + s);
    assert t[1..][1..] == [hi, lo] + s;
    HexDigitsRead(b);
    HexEscapeValue(b, s);
  }

  lemma FirstOfEscape(b: char, isChar: bool)
    ensures EscapeByte(b, isChar) != "" && (EscapeByte(b, isChar)[0] == '\\' || EscapeByte(b, isChar) == [b])
  {
  }

  /** The hexadecimal digits a payload starts with are all read by an escape in front of it, and nothing after them. */
  lemma {:induction false} RunIsSwallowed(p: string, isChar: bool, rest: string, value: nat)
    ensures var k := HexRun(p);
            ReadHex(Escape(p, isChar) + ([Quote(isChar)] + rest), value)
            == (Continued(value, p[..k]), Escape(p[k..], isChar) + ([Quote(isChar)] + rest))
    decreases |p|
  {
    hide HexValue, EscapeByte, HexEscaped;
    var tail := [Quote(isChar)] + rest;
    if p == "" {
      assert Escape(p, isChar) + tail == tail;
    } else if IsHex(p[0]) {
      hide IsHex;
      var k := HexRun(p);
      HexIsPlain(p[0], isChar);
      assert Escape(p, isChar) + tail == [p[0]] + (Escape(p[1..], isChar) + tail);
      RunIsSwallowed(p[1..], isChar, rest, (value * 16 + HexValue(p[0])) % 0x1_0000_0000);
      assert p[..k][1..] == p[1..][..k - 1] && p[1..][k - 1..] == p[k..];
    } else {
      FirstOfEscape(p[0], isChar);
      var s := Escape(p, isChar) + tail;
      assert s[0] == EscapeByte(p[0], isChar)[0];
      assert !IsHex(s[0]);
      assert p[0..] == p;
    }
  }

  lemma HexIsPlain(c: char, isChar: bool)
    requires IsHex(c)
    ensures EscapeByte(c, isChar) == [c] && !HexEscaped(c)
  {
  }

  /** Re-lexing an escaped payload always ends at its own closing quote, and yields Reread of the payload. */
  lemma {:induction false} EscapedLiteralIsReread(p: string, isChar: bool, rest: string)
    requires IsPayload(p)
    ensures ReadBody(Escape(p, isChar) + ([Quote(isChar)] + rest), Quote(isChar)) == Some((Reread(p), rest))
    decreases |p|
  {
    hide EscapeByte, ReadHex, HexEscaped, Byte;
    var tail := [Quote(isChar)] + rest;
    if p == "" {
      assert Escape(p, isChar) + tail == tail;
      assert tail[1..] == rest;
    } else {
      hide ReadBody;
      var b := p[0];
      var s := Escape(p[1..], isChar) + tail;
      assert Escape(p, isChar) + tail == EscapeByte(b, isChar) + s;
      if HexEscaped(b) {
        hide Continued, HexRun;
        var k := HexRun(p[1..]);
        RunIsSwallowed(p[1..], isChar, rest, b as int);
        ReadHexByte(b, isChar, s);
        EscapedLiteralIsReread(p[1..][k..], isChar, rest);
      } else {
        ReadPlainByte(b, isChar, s);
        EscapedLiteralIsReread(p[1..], isChar, rest);
      }
    }
  }

  lemma {:induction false} RereadLength(p: string)
    ensures |Reread(p)| <= |p| && (!Clean(p) ==> |Reread(p)| < |p|)
    decreases |p|
  {
    hide HexEscaped, IsHex, Byte, Continued;
    if p != "" {
      RereadLength(p[1..]);
      if HexEscaped(p[0]) {
        RereadLength(p[1..][HexRun(p[1..])..]);
        if HexRun(p[1..]) == 0 {
          assert p[1..][0..] == p[1..];
        }
      }
    }
  }

  /** The literal round trip, exactly: an escaped payload re-lexes to itself if and only if it is clean. */
  lemma {:induction false} RoundTripExactlyWhenClean(p: string, isChar: bool, rest: string)
    requires IsPayload(p)
    ensures ReadBody(Escape(p, isChar) + ([Quote(isChar)] + rest), Quote(isChar)) == Some((p, rest)) <==> Clean(p)
  {
    hide ReadBody, Escape, Clean, Reread;
    EscapedLiteralIsReread(p, isChar, rest);
    RereadLength(p);
    if Clean(p) {
      CleanIsReread(p);
    }
  }

  lemma {:induction false} CleanIsReread(p: string)
    requires IsPayload(p) && Clean(p)
    ensures Reread(p) == p
  {
    if p != "" {
      CleanIsReread(p[1..]);
      if HexEscaped(p[0]) {
        assert HexRun(p[1..]) == 0;
        assert p[1..][..0] == "" && p[1..][0..] == p[1..];
      }
    }
  }

  /** The shortest payload that does not survive: byte 1 followed by the digit 1. */
  lemma DigitAfterEscapeIsLost()
    ensures Escape([1 as char, '1'], false) == "\\x011"
    ensures Reread([1 as char, '1']) == [17 as char]
  {
    var p := [1 as char, '1'];
    assert p[1..] == "1" && p[1..][1..] == "";
    assert Escape(p[1..], false) == "1" + "";
    assert "\\x" + ['0', '1'] == "\\x01";
    assert HexRun("1") == 1 + HexRun("1"[1..]);
    assert p[1..][..1] == "1" && p[1..][1..] == "";
    assert Continued(1, "1") == Continued(17, "1"[1..]);
  }

  // ---------------------------------------------------------------- literals hold bytes

  lemma {:induction false} HexLeavesPayload(s: string, n: nat, value: nat)
    requires IsPayload(s)
    ensures IsPayload(ReadHex(s, value).1)
    ensures ReadHexN(s, n, value).Some? ==> IsPayload(ReadHexN(s, n, value).value.1)
    ensures IsPayload(ReadOctal(s, n, value).1)
  {
    hide HexValue;
    if s != "" {
      var next := if IsHex(s[0]) then (value * 16 + HexValue(s[0])) % 0x1_0000_0000 else 0;
      var octal := if IsOctal(s[0]) then value * 8 + (s[0] as int - '0' as int) else 0;
      HexLeavesPayload(s[1..], if n > 0 then n - 1 else 0, next);
      HexLeavesPayload(s[1..], if n > 0 then n - 1 else 0, octal);
    }
  }

  lemma EscapeLeavesPayload(s: string)
    requires IsPayload(s) && ReadEscape(s).Some?
    ensures IsPayload(ReadEscape(s).value.0) && IsPayload(ReadEscape(s).value.1)
  {
    hide ReadHex, ReadHexN, ReadOctal;
    HexLeavesPayload(s[1..], 4, 0);
    HexLeavesPayload(s[1..], 8, 0);
    if IsOctal(s[0]) {
      HexLeavesPayload(s[1..], 2, s[0] as int - '0' as int);
    }
  }

  /** The payload of a literal in a text of bytes is a string of bytes. */
  lemma {:induction false} BodyIsPayload(s: string, quote: char)
    requires IsPayload(s) && ReadBody(s, quote).Some?
    ensures IsPayload(ReadBody(s, quote).value.0) && IsPayload(ReadBody(s, quote).value.1)
    decreases |s|
  {
    hide ReadEscape;
    if s[0] == quote {
    } else if s[0] == '\\' {
      EscapeLeavesPayload(s[1..]);
      BodyIsPayload(ReadEscape(s[1..]).value.1, quote);
    } else {
      BodyIsPayload(s[1..], quote);
    }
  }
}
