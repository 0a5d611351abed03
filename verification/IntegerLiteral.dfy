/** Integer literals: exact values below 2^64 in base 2, 8, 10 and 16, digit separators, and the language of suffixes. */
module IntegerLiteral {
  import opened Basics

  const LIMIT: nat := 0x1_0000_0000_0000_0000

  // ---------------------------------------------------------------- suffixes

  /** An unsigned mark, a size word, and an unsigned mark; at most one of the marks is there. */
  datatype Mark = NoMark | LowerU | UpperU

  datatype Word = NoWord | LowerL | UpperL | LowerLL | UpperLL | LowerWB | UpperWB

  datatype Suffix = Suffix(before: Mark, word: Word, after: Mark)

  predicate IsSuffix(f: Suffix) {
    f.before == NoMark || f.after == NoMark
  }

  function MarkText(m: Mark): string {
    match m case NoMark => "" case LowerU => "u" case UpperU => "U"
  }

  function WordText(w: Word): string {
    match w
    case NoWord => "" case LowerL => "l" case UpperL => "L" case LowerLL => "ll" case UpperLL => "LL"
    case LowerWB => "wb" case UpperWB => "WB"
  }

  function SuffixText(f: Suffix): string {
    MarkText(f.before) + (WordText(f.word) + MarkText(f.after))
  }

  function LongCount(w: Word): nat {
    if w == LowerL || w == UpperL then 1 else if w == LowerLL || w == UpperLL then 2 else 0
  }

  /** What a suffix means: unsigned, how many longs, bit-precise. */
  datatype Flags = Flags(unsigned: bool, longs: nat, bitInt: bool)

  function FlagsOf(f: Suffix): Flags {
    Flags(f.before != NoMark || f.after != NoMark, LongCount(f.word), f.word == LowerWB || f.word == UpperWB)
  }

  predicate IsU(c: char) {
    c == 'u' || c == 'U'
  }

  predicate IsL(c: char) {
    c == 'l' || c == 'L'
  }

  /** The parser's view of a text: the mark, then one word, then a mark. None where it gives up. */
  function ParseMark(s: string): (Mark, string) {
    if s != "" && IsU(s[0]) then (if s[0] == 'u' then LowerU else UpperU, s[1..]) else (NoMark, s)
  }

  function ParseWord(s: string): Option<(Word, string)> {
    if s != "" && IsL(s[0]) then
      if IsL(At(s, 1)) then
        if s[1] != s[0] then None else Some((if s[0] == 'l' then LowerLL else UpperLL, s[2..]))
      else Some((if s[0] == 'l' then LowerL else UpperL, s[1..]))
    else if At(s, 0) == 'w' && At(s, 1) == 'b' then Some((LowerWB, s[2..]))
    else if At(s, 0) == 'W' && At(s, 1) == 'B' then Some((UpperWB, s[2..]))
    else Some((NoWord, s))
  }

  function ParseSuffixText(s: string): Option<Suffix> {
    var (before, s1) := ParseMark(s);
    match ParseWord(s1)
    case None => None
    case Some((word, s2)) =>
      var (after, s3) := ParseMark(s2);
      if s3 == "" && (before == NoMark || after == NoMark) then Some(Suffix(before, word, after)) else None
  }

  lemma MarkRead(s: string)
    ensures var (m, rest) := ParseMark(s); s == MarkText(m) + rest
  {
  }

  lemma WordRead(s: string)
    ensures ParseWord(s).Some? ==> var (w, rest) := ParseWord(s).value; s == WordText(w) + rest
  {
    if |s| >= 2 {
      assert s == [s[0], s[1]] + s[2..];
    }
  }

  lemma SuffixIsRead(s: string)
    ensures ParseSuffixText(s).Some? ==> IsSuffix(ParseSuffixText(s).value) && SuffixText(ParseSuffixText(s).value) == s
  {
    hide ParseMark, ParseWord, MarkText, WordText;
    MarkRead(s);
    var s1 := ParseMark(s).1;
    WordRead(s1);
    if ParseWord(s1).Some? {
      var s2 := ParseWord(s1).value.1;
      MarkRead(s2);
      if ParseMark(s2).1 == "" {
        assert MarkText(ParseMark(s2).0) + "" == MarkText(ParseMark(s2).0);
      }
    }
  }

  lemma MarkAgain(m: Mark, rest: string)
    requires rest == "" || !IsU(rest[0]) || m != NoMark
    ensures ParseMark(MarkText(m) + rest) == (m, rest)
  {
    if m == NoMark {
      assert "" + rest == rest;
    } else {
      assert (MarkText(m) + rest)[1..] == rest;
    }
  }

  lemma WordAgain(w: Word, m: Mark)
    ensures ParseWord(WordText(w) + MarkText(m)) == Some((w, MarkText(m)))
    ensures w != NoWord ==> WordText(w) + MarkText(m) != "" && !IsU((WordText(w) + MarkText(m))[0])
  {
    var s := WordText(w) + MarkText(m);
    assert s[|WordText(w)|..] == MarkText(m);
  }

  /** The texts the suffix parser accepts are the suffixes, each read as what it says. A mark on its own may be read as
      either mark. */
  lemma SuffixAgain(f: Suffix)
    requires IsSuffix(f)
    ensures ParseSuffixText(SuffixText(f)).Some? && FlagsOf(ParseSuffixText(SuffixText(f)).value) == FlagsOf(f)
  {
    hide ParseWord, WordText, LongCount;
    var tail := WordText(f.word) + MarkText(f.after);
    WordAgain(f.word, f.after);
    assert MarkText(f.after) + "" == MarkText(f.after);
    MarkAgain(f.after, "");
    if f.word == NoWord && f.before == NoMark && f.after != NoMark {
      assert WordText(NoWord) == "" by { NoWordText(); }
      assert SuffixText(f) == MarkText(f.after);
      WordAgain(NoWord, NoMark);
      assert ParseWord("") == Some((NoWord, "")) by { assert "" + "" == ""; }
    } else {
      if f.word == NoWord {
        NoWordText();
        assert "" + MarkText(f.after) == MarkText(f.after);
      }
      MarkAgain(f.before, tail);
    }
  }

  lemma NoWordText()
    ensures WordText(NoWord) == ""
  {
  }

  lemma Dropped(s: string, i: nat)
    requires i <= |s|
    ensures s[i..] == "" <==> i == |s|
    ensures i + 1 <= |s| ==> s[i..][1..] == s[i + 1..]
    ensures i + 2 <= |s| ==> s[i..][2..] == s[i + 2..]
  {
  }

  /** The suffix parser of the source, with its index and its flags. */
  method ParseSuffix(s: string) returns (ok: bool, flags: Flags)
    ensures ok == ParseSuffixText(s).Some?
    ensures ok ==> flags == FlagsOf(ParseSuffixText(s).value)
  {
    var index, unsigned, longs, bitInt := 0, false, 0, false;
    flags := Flags(false, 0, false);
    assert s[0..] == s;
    if index < |s| && IsU(s[index]) {
      unsigned := true;
      index := index + 1;
    }
    ghost var s1 := s[index..];
    assert s1 == ParseMark(s).1;
    Dropped(s, index);
    if index < |s| && IsL(s[index]) {
      var first := s[index];
      index := index + 1;
      longs := 1;
      if index < |s| && IsL(s[index]) {
        if s[index] != first {
          return false, flags;
        }
        index := index + 1;
        longs := 2;
      }
    }
    if longs == 0 && index + 1 < |s| && ((s[index] == 'w' && s[index + 1] == 'b') || (s[index] == 'W' && s[index + 1] == 'B')) {
      bitInt := true;
      index := index + 2;
    }
    ghost var s2 := s[index..];
    Dropped(s, index);
    assert ParseWord(s1).Some? && s2 == ParseWord(s1).value.1;
    if index < |s| && IsU(s[index]) {
      if unsigned {
        return false, flags;
      }
      unsigned := true;
      index := index + 1;
    }
    assert s[index..] == ParseMark(s2).1 by {
      Dropped(s, |s| - |s2|);
    }
    return index == |s|, Flags(unsigned, longs, bitInt);
  }

  // ---------------------------------------------------------------- the language of suffixes

  const Marks: set<string> := {"", "u", "U"}
  const Words: set<string> := {"", "l", "L", "ll", "LL", "wb", "WB"}

  /** A text is accepted as a suffix if and only if it is an unsigned mark and a size word, either of which may be missing,
      in either order. */
  lemma SuffixesExactly(s: string)
    ensures ParseSuffixText(s).Some? <==> exists m, w :: m in Marks && w in Words && IsMarkAndWord(s, m, w)
  {
    hide ParseSuffixText, SuffixText;
    if ParseSuffixText(s).Some? {
      SuffixIsRead(s);
      SuffixInSets(ParseSuffixText(s).value);
    }
    if m, w :| m in Marks && w in Words && IsMarkAndWord(s, m, w) {
      var f := SuffixOf(s, m, w);
      SuffixAgain(f);
    }
  }

  predicate IsMarkAndWord(s: string, m: string, w: string) {
    s == m + w || s == w + m
  }

  lemma SuffixInSets(f: Suffix)
    requires IsSuffix(f)
    ensures exists m, w :: m in Marks && w in Words && IsMarkAndWord(SuffixText(f), m, w)
  {
    var b, w, a := MarkText(f.before), WordText(f.word), MarkText(f.after);
    assert b in Marks && w in Words && a in Marks;
    if f.after == NoMark {
      assert w + a == w;
      assert IsMarkAndWord(SuffixText(f), b, w);
    } else {
      assert b + (w + a) == w + a;
      assert IsMarkAndWord(SuffixText(f), a, w);
    }
  }

  lemma SuffixOf(s: string, m: string, w: string) returns (f: Suffix)
    requires m in Marks && w in Words && IsMarkAndWord(s, m, w)
    ensures IsSuffix(f) && SuffixText(f) == s
  {
    var mark := if m == "u" then LowerU else if m == "U" then UpperU else NoMark;
    var word := if w == "l" then LowerL else if w == "L" then UpperL else if w == "ll" then LowerLL else if w == "LL" then UpperLL
                else if w == "wb" then LowerWB else if w == "WB" then UpperWB else NoWord;
    assert MarkText(mark) == m && WordText(word) == w;
    if s == m + w {
      f := Suffix(mark, word, NoMark);
      assert w + "" == w;
    } else {
      f := Suffix(NoMark, word, mark);
      assert "" + (w + m) == w + m;
    }
  }

  /** What a suffix means shows in its letters: unsigned with a u, long with an l, long long with two in a
      row, bit-precise with a w. */
  lemma LettersShowMeaning(f: Suffix)
    ensures FlagsOf(f).unsigned <==> 'u' in SuffixText(f) || 'U' in SuffixText(f)
    ensures FlagsOf(f).longs <= 2 && (FlagsOf(f).longs >= 1 <==> 'l' in SuffixText(f) || 'L' in SuffixText(f))
    ensures FlagsOf(f).longs == 2 <==> DoubleL(SuffixText(f))
    ensures FlagsOf(f).bitInt <==> 'w' in SuffixText(f) || 'W' in SuffixText(f)
  {
    var b, w, a := MarkText(f.before), WordText(f.word), MarkText(f.after);
    var s := SuffixText(f);
    LettersOfParts(b, w, a, s);
    if LongCount(f.word) == 2 {
      assert s[|b|] == s[|b| + 1] == w[0];
    }
  }

  predicate DoubleL(s: string) {
    exists i :: 0 <= i < |s| - 1 && s[i] in {'l', 'L'} && s[i + 1] == s[i]
  }

  lemma LettersOfParts(b: string, w: string, a: string, s: string)
    requires s == b + (w + a)
    ensures forall c :: c in s <==> c in b || c in w || c in a
    ensures forall i :: 0 <= i < |s| ==> s[i] == if i < |b| then b[i] else if i < |b| + |w| then w[i - |b|] else a[i - |b| - |w|]
  {
  }

  // ---------------------------------------------------------------- digits

  /** The value of a digit in any base up to 16, or 16. */
  function DigitValue(c: char): (d: nat)
    ensures d <= 16
  {
    if '0' <= c <= '9' then c as int - '0' as int
    else if 'a' <= c <= 'f' then 10 + (c as int - 'a' as int)
    else if 'A' <= c <= 'F' then 10 + (c as int - 'A' as int)
    else 16
  }

  predicate IsBase(b: nat) {
    b == 2 || b == 8 || b == 10 || b == 16
  }

  predicate IsDigit(c: char, b: nat)
    requires IsBase(b)
  {
    DigitValue(c) < b
  }

  /** Digits with single separators between them. */
  predicate IsDigitSequence(s: string, b: nat)
    requires IsBase(b)
  {
    s != "" && IsDigit(s[0], b) &&
    (|s| == 1 || IsDigitSequence(s[1..], b) || (s[1] == '\'' && IsDigitSequence(s[2..], b)))
  }

  /** The value of the digits of a text, separators skipped. */
  function Value(s: string, b: nat): nat
    requires IsBase(b)
  {
    if s == "" then 0
    else if s[|s| - 1] == '\'' then Value(s[..|s| - 1], b)
    else Value(s[..|s| - 1], b) * b + DigitValue(s[|s| - 1])
  }

  function Stripped(s: string): string {
    if s == "" then ""
    else if s[|s| - 1] == '\'' then Stripped(s[..|s| - 1])
    else Stripped(s[..|s| - 1]) + [s[|s| - 1]]
  }

  lemma ValueSnoc(t: string, c: char, b: nat)
    requires IsBase(b)
    ensures Value(t + [c], b) == if c == '\'' then Value(t, b) else Value(t, b) * b + DigitValue(c)
  {
    hide DigitValue;
    assert (t + [c])[..|t|] == t;
  }

  /** Separators never change a value. */
  lemma {:induction false} SeparatorsAreIgnored(s: string, b: nat)
    requires IsBase(b)
    ensures Value(Stripped(s), b) == Value(s, b)
    ensures '\'' !in Stripped(s)
  {
    hide Value, DigitValue;
    if s != "" {
      var init, c := s[..|s| - 1], s[|s| - 1];
      assert s == init + [c];
      SeparatorsAreIgnored(init, b);
      ValueSnoc(init, c, b);
      ValueSnoc(Stripped(init), c, b);
    }
  }

  lemma {:induction false} ValueGrows(s: string, t: string, b: nat)
    requires IsBase(b)
    ensures Value(s, b) <= Value(s + t, b)
    decreases |t|
  {
    hide Value, DigitValue;
    if t == "" {
      assert s + t == s;
    } else {
      var init, c := t[..|t| - 1], t[|t| - 1];
      assert s + t == (s + init) + [c];
      ValueGrows(s, init, b);
      ValueSnoc(s + init, c, b);
      Grows(Value(s + init, b), b);
    }
  }

  lemma Grows(v: nat, b: nat)
    requires IsBase(b)
    ensures v <= v * b
  {
    assert v * 1 <= v * b;
  }

  /** How far the scanning loop gets; started tells whether a digit has been seen. */
  function DigitRun(s: string, b: nat, started: bool): (n: nat)
    requires IsBase(b)
    ensures n <= |s|
  {
    if s == "" then 0
    else if s[0] == '\'' && started && IsDigit(At(s, 1), b) then 1 + DigitRun(s[1..], b, true)
    else if IsDigit(s[0], b) then 1 + DigitRun(s[1..], b, true)
    else 0
  }

  lemma NulIsNoDigit(b: nat)
    requires IsBase(b)
    ensures !IsDigit('\0', b) && !IsDigit('\'', b)
  {
  }

  /** The loop takes a digit sequence, or nothing. */
  lemma {:induction false} RunIsDigitSequence(s: string, b: nat)
    requires IsBase(b)
    ensures var n := DigitRun(s, b, false); n > 0 ==> IsDigitSequence(s[..n], b)
    ensures s != "" && IsDigit(s[0], b) ==> DigitRun(s, b, false) == DigitRun(s, b, true)
    decreases |s|
  {
    hide IsDigit;
    NulIsNoDigit(b);
    if s != "" && IsDigit(s[0], b) {
      var n := DigitRun(s, b, false);
      var t := s[1..];
      RunIsDigitSequence(t, b);
      if n > 1 {
        if t[0] == '\'' {
          RunIsDigitSequence(t[1..], b);
          assert s[..n][2..] == t[1..][..n - 2];
        } else {
          assert s[..n][1..] == t[..n - 1];
        }
      }
    }
  }

  /** In front of something that neither is a digit nor a separator, the loop takes the whole of a digit sequence. */
  lemma {:induction false} RunTakesDigitSequence(d: string, rest: string, b: nat)
    requires IsBase(b) && IsDigitSequence(d, b)
    requires rest == "" || (rest[0] != '\'' && !IsDigit(rest[0], b))
    ensures DigitRun(d + rest, b, false) == |d| && DigitRun(d + rest, b, true) == |d|
    decreases |d|
  {
    hide IsDigit;
    NulIsNoDigit(b);
    var s := d + rest;
    assert s[1..] == d[1..] + rest;
    if |d| > 1 {
      if IsDigitSequence(d[1..], b) {
        RunTakesDigitSequence(d[1..], rest, b);
      } else {
        var u := d[2..];
        assert s[1..][1..] == u + rest;
        assert u[0] == d[2];
        RunTakesDigitSequence(u, rest, b);
      }
    } else {
      assert s[1..] == rest;
    }
  }

  // ---------------------------------------------------------------- literals

  function BaseOf(text: string): (b: nat)
    ensures IsBase(b)
  {
    if At(text, 0) == '0' && (At(text, 1) == 'x' || At(text, 1) == 'X') then 16
    else if At(text, 0) == '0' && (At(text, 1) == 'b' || At(text, 1) == 'B') then 2
    else if |text| > 1 && text[0] == '0' then 8
    else 10
  }

  function PrefixLength(text: string): (n: nat)
    ensures n <= |text|
  {
    if BaseOf(text) == 16 || BaseOf(text) == 2 then 2 else 0
  }

  /** The base and its prefix, by the text: 0x and 0b with either letter, a 0 in front of something else, and anything that
      does not start with 0, or is a lone 0. */
  lemma BasesByText(c: char, s: string)
    ensures BaseOf("0x" + s) == BaseOf("0X" + s) == 16 && PrefixLength("0x" + s) == PrefixLength("0X" + s) == 2
    ensures BaseOf("0b" + s) == BaseOf("0B" + s) == 2 && PrefixLength("0b" + s) == PrefixLength("0B" + s) == 2
    ensures c !in {'x', 'X', 'b', 'B'} ==> BaseOf("0" + ([c] + s)) == 8 && PrefixLength("0" + ([c] + s)) == 0
    ensures c != '0' ==> BaseOf([c] + s) == 10 && PrefixLength([c] + s) == 0
    ensures BaseOf("0") == 10 && PrefixLength("0") == 0
  {
  }

  /** The digits and their values. */
  lemma DigitsByPlace(k: nat)
    requires k < 16
    ensures DigitValue("0123456789abcdef"[k]) == DigitValue("0123456789ABCDEF"[k]) == k
    ensures forall c :: DigitValue(c) < 16 ==> c == "0123456789abcdef"[DigitValue(c)] || c == "0123456789ABCDEF"[DigitValue(c)]
  {
  }

  datatype Info = Info(value: nat, base: nat, flags: Flags)

  /** A text is a literal: after the prefix of its base it is a digit sequence and a suffix. */
  ghost predicate IsLiteral(text: string, digits: string, f: Suffix) {
    IsDigitSequence(digits, BaseOf(text)) && IsSuffix(f) && text[PrefixLength(text)..] == digits + SuffixText(f)
  }

  lemma SuffixStart(f: Suffix, b: nat)
    requires IsBase(b)
    ensures SuffixText(f) == "" || (SuffixText(f)[0] != '\'' && !IsDigit(SuffixText(f)[0], b))
  {
  }

  /** The parse of the source as a function of the scanned run. */
  ghost function Parsed(text: string): Option<Info> {
    var b := BaseOf(text);
    var body := text[PrefixLength(text)..];
    var n := DigitRun(body, b, false);
    if n == 0 || Value(body[..n], b) >= LIMIT then None
    else
      match ParseSuffixText(body[n..])
      case None => None
      case Some(f) => Some(Info(Value(body[..n], b), b, FlagsOf(f)))
  }

  /** A text parses exactly if it is a literal whose value is below 2^64, and then to that very value, base and
      meaning of the suffix. */
  lemma ParsedExactly(text: string, digits: string, f: Suffix)
    ensures IsLiteral(text, digits, f) ==>
              Parsed(text) == if Value(digits, BaseOf(text)) < LIMIT then Some(Info(Value(digits, BaseOf(text)), BaseOf(text), FlagsOf(f)))
                              else None
    ensures Parsed(text).Some? ==>
              exists digits', f' :: IsLiteral(text, digits', f') && Value(digits', BaseOf(text)) == Parsed(text).value.value < LIMIT
                                    && FlagsOf(f') == Parsed(text).value.flags
  {
    hide ParseSuffixText, DigitRun, IsDigitSequence, Value, SuffixText, FlagsOf, IsDigit;
    var b := BaseOf(text);
    var body := text[PrefixLength(text)..];
    if IsLiteral(text, digits, f) {
      SuffixStart(f, b);
      RunTakesDigitSequence(digits, SuffixText(f), b);
      assert body[..|digits|] == digits && body[|digits|..] == SuffixText(f);
      SuffixAgain(f);
      assert digits != "" by { SequenceHasDigits(digits, b); }
    }
    if Parsed(text).Some? {
      var n := DigitRun(body, b, false);
      RunIsDigitSequence(body, b);
      SuffixIsRead(body[n..]);
      var f' := ParseSuffixText(body[n..]).value;
      assert body == body[..n] + SuffixText(f');
      assert IsLiteral(text, body[..n], f');
    }
  }

  lemma SequenceHasDigits(d: string, b: nat)
    requires IsBase(b) && IsDigitSequence(d, b)
    ensures d != ""
  {
  }

  lemma NoWrap(value: nat, d: nat, b: nat)
    requires IsBase(b) && d < b
    ensures value > (LIMIT - 1 - d) / b <==> value * b + d >= LIMIT
  {
  }

  lemma RunStep(s: string, b: nat, i: nat, started: bool)
    requires IsBase(b) && i < |s|
    ensures DigitRun(s[i..], b, started) ==
            if (s[i] == '\'' && started && i + 1 < |s| && IsDigit(s[i + 1], b)) || IsDigit(s[i], b) then 1 + DigitRun(s[i + 1..], b, true)
            else 0
  {
    hide IsDigit;
    NulIsNoDigit(b);
    assert s[i..][1..] == s[i + 1..];
  }

  lemma ValueStep(s: string, begin: nat, i: nat, b: nat)
    requires IsBase(b) && begin <= i < |s|
    ensures Value(s[begin..i + 1], b) == if s[i] == '\'' then Value(s[begin..i], b) else Value(s[begin..i], b) * b + DigitValue(s[i])
  {
    hide Value, DigitValue;
    assert s[begin..i + 1] == s[begin..i] + [s[i]];
    ValueSnoc(s[begin..i], s[i], b);
  }

  /** The parser of the source. No step of it exceeds 64 bits. */
  method ParseIntegerLiteral(text: string) returns (r: Option<Info>)
    ensures r == Parsed(text)
  {
    hide Value, DigitRun, ParseSuffixText, IsDigit, BaseOf;
    if text == "" {
      EmptyIsNoLiteral();
      return None;
    }
    var base := BaseOf(text);
    var begin := PrefixLength(text);
    var index, value := begin, 0;
    ghost var body := text[begin..];
    ghost var n := DigitRun(body, base, false);
    assert Value("", base) == 0 by { EmptyValue(base); }
    assert text[begin..begin] == "";
    while index < |text|
      invariant begin <= index <= |text|
      invariant value == Value(text[begin..index], base) < LIMIT
      invariant n == index - begin + DigitRun(text[index..], base, index > begin)
    {
      RunStep(text, base, index, index > begin);
      ValueStep(text, begin, index, base);
      NulIsNoDigit(base);
      if text[index] == '\'' && index > begin && index + 1 < |text| {
        if IsDigit(text[index + 1], base) {
          index := index + 1;
          continue;
        }
        break;
      }
      if !IsDigit(text[index], base) {
        break;
      }
      var d := DigitValue(text[index]);
      assert d < base by { DigitBelowBase(text[index], base); }
      NoWrap(value, d, base);
      if value > (LIMIT - 1 - d) / base {
        RestOfRun(text, begin, index + 1, n, base);
        return None;
      }
      value := value * base + d;
      index := index + 1;
    }
    assert n == index - begin by { RunOver(text, index, base, index > begin); }
    assert body[..n] == text[begin..index] && body[n..] == text[index..];
    if index == begin {
      return None;
    }
    var ok, flags := ParseSuffix(text[index..]);
    if !ok {
      return None;
    }
    return Some(Info(value, base, flags));
  }

  lemma EmptyIsNoLiteral()
    ensures Parsed("") == None
  {
  }

  lemma EmptyValue(b: nat)
    requires IsBase(b)
    ensures Value("", b) == 0
  {
  }

  lemma DigitBelowBase(c: char, b: nat)
    requires IsBase(b) && IsDigit(c, b)
    ensures DigitValue(c) < b
  {
  }

  lemma RunOver(text: string, index: nat, b: nat, started: bool)
    requires IsBase(b) && index <= |text|
    requires index < |text| ==> !IsDigit(text[index], b) && !(text[index] == '\'' && started && index + 1 < |text| && IsDigit(text[index + 1], b))
    ensures DigitRun(text[index..], b, started) == 0
  {
    if index < |text| {
      RunStep(text, b, index, started);
    }
  }

  /** Once too big, always too big. */
  lemma RestOfRun(text: string, begin: nat, i: nat, n: nat, b: nat)
    requires IsBase(b) && begin < i <= begin + n <= |text|
    requires Value(text[begin..i], b) >= LIMIT
    ensures Value(text[begin..][..n], b) >= LIMIT
  {
    hide Value;
    var all := text[begin..][..n];
    assert all == text[begin..i] + text[i..begin + n];
    ValueGrows(text[begin..i], text[i..begin + n], b);
  }

  // ---------------------------------------------------------------- a worked example

  lemma ExampleParsed(text: string, digits: string, f: Suffix, b: nat, value: nat)
    requires b == BaseOf(text) && IsDigitSequence(digits, b) && Value(digits, b) == value < LIMIT
    requires IsSuffix(f) && text[PrefixLength(text)..] == digits + SuffixText(f)
    ensures Parsed(text) == Some(Info(value, b, FlagsOf(f)))
  {
    hide Parsed, Value, IsDigitSequence;
    ParsedExactly(text, digits, f);
  }

  lemma ExampleLiterals()
    ensures Parsed("0x1Fu") == Some(Info(31, 16, Flags(true, 0, false)))
    ensures Parsed("0b1'01wb") == Some(Info(5, 2, Flags(false, 0, true)))
    ensures Parsed("017LL") == Some(Info(15, 8, Flags(false, 2, false)))
    ensures Parsed("90") == Some(Info(90, 10, Flags(false, 0, false)))
  {
    hide Parsed;
    ExampleHex();
    ExampleBinary();
    ExampleOctal();
    ExampleDecimal();
  }

  lemma ExampleHex()
    ensures Parsed("0x1Fu") == Some(Info(31, 16, Flags(true, 0, false)))
  {
    hide Parsed, IsDigitSequence, Value, BaseOf, PrefixLength;
    BasesByText('1', "1Fu");
    ExampleDigits();
    assert "0x" + "1Fu" == "0x1Fu" && "0x1Fu"[2..] == "1F" + SuffixText(Suffix(LowerU, NoWord, NoMark));
    ExampleParsed("0x1Fu", "1F", Suffix(LowerU, NoWord, NoMark), 16, 31);
  }

  lemma ExampleBinary()
    ensures Parsed("0b1'01wb") == Some(Info(5, 2, Flags(false, 0, true)))
  {
    hide Parsed, IsDigitSequence, Value, BaseOf, PrefixLength;
    BasesByText('1', "1'01wb");
    ExampleDigits();
    assert "0b" + "1'01wb" == "0b1'01wb" && "0b1'01wb"[2..] == "1'01" + SuffixText(Suffix(NoMark, LowerWB, NoMark));
    ExampleParsed("0b1'01wb", "1'01", Suffix(NoMark, LowerWB, NoMark), 2, 5);
  }

  lemma ExampleOctal()
    ensures Parsed("017LL") == Some(Info(15, 8, Flags(false, 2, false)))
  {
    hide Parsed, IsDigitSequence, Value, BaseOf, PrefixLength;
    BasesByText('1', "7LL");
    ExampleDigits();
    assert "0" + (['1'] + "7LL") == "017LL" && "017LL"[0..] == "017" + SuffixText(Suffix(NoMark, UpperLL, NoMark));
    ExampleParsed("017LL", "017", Suffix(NoMark, UpperLL, NoMark), 8, 15);
  }

  lemma ExampleDecimal()
    ensures Parsed("90") == Some(Info(90, 10, Flags(false, 0, false)))
  {
    hide Parsed, IsDigitSequence, Value, BaseOf, PrefixLength;
    BasesByText('9', "0");
    ExampleDigits();
    assert ['9'] + "0" == "90" && "90"[0..] == "90" + SuffixText(Suffix(NoMark, NoWord, NoMark));
    ExampleParsed("90", "90", Suffix(NoMark, NoWord, NoMark), 10, 90);
  }

  lemma ExampleDigits()
    ensures IsDigitSequence("1F", 16) && Value("1F", 16) == 31
    ensures IsDigitSequence("1'01", 2) && Value("1'01", 2) == 5
    ensures IsDigitSequence("017", 8) && Value("017", 8) == 15
    ensures IsDigitSequence("90", 10) && Value("90", 10) == 90
  {
    assert "1F"[1..] == "F" && "1F"[..1] == "1" && "1"[..0] == "";
    assert "1'01"[2..] == "01" && "01"[1..] == "1" && "1'01"[..3] == "1'0" && "1'0"[..2] == "1'" && "1'"[..1] == "1";
    assert "017"[1..] == "17" && "17"[1..] == "7" && "017"[..2] == "01" && "01"[..1] == "0" && "0"[..0] == "";
    assert "90"[1..] == "0" && "90"[..1] == "9" && "9"[..0] == "";
    assert Value("1'0", 2) == 2 && Value("01", 8) == 1 && Value("9", 10) == 9;
  }

  /** 0x1Fu, 0b1'01wb, 017LL and 90. */
  method ParseExamples() returns (hex: Option<Info>, binary: Option<Info>, octal: Option<Info>, decimal: Option<Info>)
    ensures hex == Some(Info(31, 16, Flags(true, 0, false))) && binary == Some(Info(5, 2, Flags(false, 0, true)))
    ensures octal == Some(Info(15, 8, Flags(false, 2, false))) && decimal == Some(Info(90, 10, Flags(false, 0, false)))
  {
    hide Parsed;
    ExampleLiterals();
    hex := ParseIntegerLiteral("0x1Fu");
    binary := ParseIntegerLiteral("0b1'01wb");
    octal := ParseIntegerLiteral("017LL");
    decimal := ParseIntegerLiteral("90");
  }
}
