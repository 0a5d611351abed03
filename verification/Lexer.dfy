/** The lexer as the object it is: a source text and a position that the scanning loops advance. */
module Lexers {
  import opened Basics
  import opened LiteralEscape
  import opened Lexing

  datatype Outcome = EndOfText | LexError | NewLine | Unknown(text: string) | Found(token: Token)

  function OutcomeOf(r: Lexed): Outcome {
    match r
    case End => EndOfText
    case Failed => LexError
    case LineBreak(_) => NewLine
    case Stray(text, _) => Unknown(text)
    case Lexed(t, _) => Found(t)
  }

  /** After anything but an error or the end, the lexer stands behind what it has found. */
  predicate IsLeft(r: Lexed, rest: string) {
    !r.End? && !r.Failed? ==> rest == r.rest
  }

  lemma Drop(s: string, i: nat, k: nat)
    requires i <= |s| && k <= |s| - i
    ensures s[i..][k..] == s[i + k..]
  {
  }

  /** The 32-bit shift-and-or of the escape loops. */
  function ShiftHex(value: nat, c: char): nat
    requires IsHex(c)
  {
    (value * 16 + HexValue(c)) % 0x1_0000_0000
  }

  class Lexer {
    const source: string
    const newLineTokens: bool
    var position: nat

    constructor (source: string, newLineTokens: bool)
      ensures this.source == source && this.newLineTokens == newLineTokens && Valid() && Rest() == source
    {
      this.source, this.newLineTokens, position := source, newLineTokens, 0;
    }

    /** The specification of one call, in the mode the lexer is in. */
    function Spec(s: string): Lexed {
      if newLineTokens then NextOrLine(s) else Next(s)
    }

    predicate Valid()
      reads this
    {
      position <= |source|
    }

    /** What is left to read. */
    function Rest(): string
      reads this
      requires Valid()
    {
      source[position..]
    }

    function Peek(offset: nat): (c: char)
      reads this
      requires Valid()
      ensures c == At(Rest(), offset)
    {
      if position + offset < |source| then source[position + offset] else '\0'
    }

    method Advance(n: nat)
      requires Valid() && n <= |Rest()|
      modifies `position
      ensures Valid() && Rest() == old(Rest())[n..]
    {
      Drop(source, position, n);
      position := position + n;
    }

    /** Identifier characters, as many as there are. */
    method SkipWord()
      requires Valid()
      modifies `position
      ensures Valid() && position == old(position) + WordLength(old(Rest()))
    {
      ghost var start := position;
      while IsWordChar(Peek(0))
        invariant Valid() && start <= position
        invariant WordLength(source[start..]) == position - start + WordLength(Rest())
        decreases |source| - position
      {
        Drop(source, position, 1);
        position := position + 1;
      }
    }

    /** The rest of a preprocessing number. */
    method SkipNumber()
      requires Valid()
      modifies `position
      ensures Valid() && position == old(position) + NumberLength(old(Rest()))
    {
      ghost var start := position;
      while true
        invariant Valid() && start <= position
        invariant NumberLength(source[start..]) == position - start + NumberLength(Rest())
        decreases |source| - position
      {
        var c := Peek(0);
        if IsExponent(c) && IsSign(Peek(1)) {
          Drop(source, position, 2);
          position := position + 2;
          continue;
        }
        if IsWordChar(c) || c == '.' {
          Drop(source, position, 1);
          position := position + 1;
          continue;
        }
        if c == '\'' && IsWordChar(Peek(1)) {
          Drop(source, position, 1);
          position := position + 1;
          continue;
        }
        break;
      }
    }

    method SkipLineComment()
      requires Valid()
      modifies `position
      ensures Valid() && position >= old(position) && Rest() == SkipLine(old(Rest()))
    {
      ghost var start := position;
      while Peek(0) != '\n' && Peek(0) != '\0'
        invariant Valid() && start <= position
        invariant SkipLine(source[start..]) == SkipLine(Rest())
        decreases |source| - position
      {
        Drop(source, position, 1);
        position := position + 1;
      }
    }

    method SkipBlockComment() returns (closed: bool)
      requires Valid()
      modifies `position
      ensures Valid() && position >= old(position)
      ensures closed == SkipBlock(old(Rest())).Some? && (closed ==> SkipBlock(old(Rest())) == Some(Rest()))
    {
      ghost var start := position;
      while true
        invariant Valid() && start <= position
        invariant SkipBlock(source[start..]) == SkipBlock(Rest())
        decreases |source| - position
      {
        var c := Peek(0);
        if c == '\0' {
          return false;
        }
        if c == '*' && Peek(1) == '/' {
          Drop(source, position, 2);
          position := position + 2;
          return true;
        }
        Drop(source, position, 1);
        position := position + 1;
      }
    }

    /** All the hexadecimal digits there are. */
    method ReadHexDigits() returns (value: nat)
      requires Valid()
      modifies `position
      ensures Valid() && position >= old(position) && ReadHex(old(Rest()), 0) == (value, Rest())
    {
      ghost var start := position;
      value := 0;
      while IsHex(Peek(0))
        invariant Valid() && start <= position
        invariant ReadHex(source[start..], 0) == ReadHex(Rest(), value)
        decreases |source| - position
      {
        Drop(source, position, 1);
        value := ShiftHex(value, Peek(0));
        position := position + 1;
      }
    }

    method ReadHexCount(n: nat) returns (value: Option<nat>)
      requires Valid()
      modifies `position
      ensures Valid() && position >= old(position)
      ensures match ReadHexN(old(Rest()), n, 0)
              case None => value == None
              case Some((v, rest)) => value == Some(v) && rest == Rest()
    {
      ghost var start := position;
      var v, i := 0, 0;
      while i < n
        invariant Valid() && start <= position && i <= n
        invariant ReadHexN(source[start..], n, 0) == ReadHexN(Rest(), n - i, v)
      {
        if !IsHex(Peek(0)) {
          return None;
        }
        Drop(source, position, 1);
        v := ShiftHex(v, Peek(0));
        position := position + 1;
        i := i + 1;
      }
      return Some(v);
    }

    method ReadOctalDigits(first: nat) returns (value: nat)
      requires Valid()
      modifies `position
      ensures Valid() && position >= old(position) && ReadOctal(old(Rest()), 2, first) == (value, Rest())
    {
      ghost var start := position;
      value := first;
      var count := 1;
      while count < 3 && IsOctal(Peek(0))
        invariant Valid() && start <= position && 1 <= count <= 3
        invariant ReadOctal(source[start..], 2, first) == ReadOctal(Rest(), 3 - count, value)
      {
        Drop(source, position, 1);
        value := value * 8 + (Peek(0) as int - '0' as int);
        position := position + 1;
        count := count + 1;
      }
    }

    /** The escape after a backslash. */
    method ReadEscapeSequence() returns (bytes: Option<string>)
      requires Valid()
      modifies `position
      ensures Valid() && position >= old(position)
      ensures match ReadEscape(old(Rest()))
              case None => bytes == None
              case Some((b, rest)) => bytes == Some(b) && rest == Rest() && position > old(position)
    {
      hide ReadHex, ReadHexN, ReadOctal, EncodeUtf8, IsHex, Byte;
      var code := Peek(0);
      if code == '\0' {
        return None;
      }
      Advance(1);
      match code {
        case 'a' => return Some([BEL]);
        case 'b' => return Some([BS]);
        case 'f' => return Some([FF]);
        case 'n' => return Some("\n");
        case 'r' => return Some("\r");
        case 't' => return Some("\t");
        case 'v' => return Some([VT]);
        case 'e' => return Some([ESC]);
        case 'E' => return Some([ESC]);
        case 'x' =>
          if !IsHex(Peek(0)) {
            NulIsNoHex();
            return None;
          }
          NulIsNoHex();
          var value := ReadHexDigits();
          return Some([Byte(value % 256)]);
        case 'u' =>
          var value := ReadHexCount(4);
          return if value.Some? then EncodeUtf8(value.value) else None;
        case 'U' =>
          var value := ReadHexCount(8);
          return if value.Some? then EncodeUtf8(value.value) else None;
        case _ =>
          if IsOctal(code) {
            var value := ReadOctalDigits(code as int - '0' as int);
            return Some([Byte(value % 256)]);
          }
          return Some([code]);
      }
    }

    /** A literal after its opening quote; without a closing one, whether the line or the text has just ended. */
    method ReadLiteralBody(quote: char) returns (payload: Option<string>, stopped: bool)
      requires Valid() && quote != '\0'
      modifies `position
      ensures Valid() && position >= old(position)
      ensures match ReadBody(old(Rest()), quote)
              case None => payload == None && stopped == BodyStop(old(Rest()), quote).Some?
                           && (stopped ==> BodyStop(old(Rest()), quote) == Some(Rest()))
              case Some((p, rest)) => payload == Some(p) && rest == Rest()
    {
      hide ReadEscape;
      ghost var start := position;
      var value := "";
      var curr := Peek(0);
      assert Prepend(value, ReadBody(Rest(), quote)) == ReadBody(Rest(), quote) by { PrependNothing(ReadBody(Rest(), quote)); }
      while curr != quote
        invariant Valid() && start <= position && curr == Peek(0)
        invariant Prepend(value, ReadBody(Rest(), quote)) == ReadBody(source[start..], quote)
        invariant BodyStop(Rest(), quote) == BodyStop(source[start..], quote)
        decreases |source| - position
      {
        if curr == '\0' || curr == '\n' {
          return None, true;
        }
        ghost var here := Rest();
        if curr == '\\' {
          Advance(1);
          var bytes := ReadEscapeSequence();
          if bytes == None {
            return None, false;
          }
          PrependTwice(value, bytes.value, ReadBody(Rest(), quote));
          value := value + bytes.value;
        } else {
          Advance(1);
          PrependTwice(value, [curr], ReadBody(Rest(), quote));
          value := value + [curr];
        }
        curr := Peek(0);
      }
      Advance(1);
      assert value + "" == value;
      return Some(value), false;
    }

    /** Skips blanks and comments, up to a line feed if those are tokens; false if a block comment has no end. */
    method SkipBlanks() returns (ok: bool)
      requires Valid()
      modifies `position
      ensures Valid() && position >= old(position)
      ensures !ok ==> Spec(old(Rest())) == Failed
      ensures ok ==> Spec(old(Rest())) == Spec(Rest())
                     && (Rest() == "" || Rest()[0] == '\0' || (newLineTokens && Rest()[0] == '\n') || Spec(Rest()) == NextVisible(Rest()))
    {
      hide NextVisible, SkipLine, SkipBlock;
      ghost var start := position;
      while Peek(0) != '\0'
        invariant Valid() && start <= position
        invariant Spec(source[start..]) == Spec(Rest())
        decreases |source| - position
      {
        var c := Peek(0);
        if c == '/' && Peek(1) == '/' {
          Advance(2);
          SkipLineComment();
        } else if c == '/' && Peek(1) == '*' {
          Advance(2);
          var closed := SkipBlockComment();
          if !closed {
            return false;
          }
        } else if IsSpace(c) {
          if c == '\n' && newLineTokens {
            return true;
          }
          Advance(1);
        } else if c == '\\' && Peek(1) == '\n' {
          Advance(2);
        } else {
          return true;
        }
      }
      return true;
    }

    /** A literal whose encoding prefix has been recognised. */
    method ReadPrefixedLiteral(prefix: Prefix) returns (r: Outcome)
      requires Valid() && |PrefixText(prefix)| < |Rest()| && Rest()[|PrefixText(prefix)|] != '\0'
      modifies `position
      ensures Valid()
      ensures r == OutcomeOf(ReadLiteral(old(Rest()), prefix)) && IsLeft(ReadLiteral(old(Rest()), prefix), Rest())
    {
      hide ReadBody, BodyStop;
      var quote := Peek(|PrefixText(prefix)|);
      Advance(|PrefixText(prefix)| + 1);
      var payload, stopped := ReadLiteralBody(quote);
      if payload == None {
        return if stopped then Unknown([quote]) else LexError;
      }
      return Found(Literal(prefix, quote == '\'', payload.value));
    }

    /** The token at the position, which is on no blank. */
    method ReadVisible() returns (r: Outcome)
      requires Valid() && Rest() != ""
      modifies `position
      ensures Valid()
      ensures r == OutcomeOf(NextVisible(old(Rest()))) && IsLeft(NextVisible(old(Rest())), Rest())
    {
      hide ReadLiteral, LiteralStart, WordLength, NumberLength, PunctuatorOrStray, IsWordChar, IsNonDigit, IsDigit;
      var begin := position;
      var prefix := LiteralStart(source[position..]);
      if prefix.Some? {
        assert IsQuote(Rest()[|PrefixText(prefix.value)|]);
        r := ReadPrefixedLiteral(prefix.value);
        return;
      }
      if IsDigit(Peek(0)) || (Peek(0) == '.' && IsDigit(Peek(1))) {
        Advance(1);
        SkipNumber();
        Taken(begin);
        return Found(Number(source[begin..position]));
      }
      if IsNonDigit(Peek(0)) {
        Advance(1);
        SkipWord();
        Taken(begin);
        return Found(Identifier(source[begin..position]));
      }
      r := ReadPunctuator();
    }

    /** A punctuator, or a character that starts no token. */
    method ReadPunctuator() returns (r: Outcome)
      requires Valid() && Rest() != ""
      modifies `position
      ensures Valid()
      ensures r == OutcomeOf(PunctuatorOrStray(old(Rest()))) && IsLeft(PunctuatorOrStray(old(Rest())), Rest())
    {
      hide PunctuatorLength;
      var begin := position;
      var n := PunctuatorLength(Peek(0), Peek(1), Peek(2));
      if n == 0 || n > |source| - position {
        var c := Peek(0);
        Advance(StrayLength(Rest()));
        return Unknown([c]);
      }
      Advance(n);
      Taken(begin);
      return Found(Punctuator(source[begin..position]));
    }

    /** One call of the lexer. */
    method NextToken() returns (r: Outcome)
      requires Valid()
      modifies `position
      ensures Valid()
      ensures r == OutcomeOf(Spec(old(Rest()))) && IsLeft(Spec(old(Rest())), Rest())
    {
      hide Next, NextOrLine, NextVisible;
      var ok := SkipBlanks();
      if !ok {
        return LexError;
      }
      if Peek(0) == '\0' {
        NothingLeft(Rest());
        return EndOfText;
      }
      if newLineTokens && Peek(0) == '\n' {
        LineLeft(Rest());
        Advance(1);
        return NewLine;
      }
      r := ReadVisible();
    }

    lemma Taken(begin: nat)
      requires Valid() && begin <= position
      ensures source[begin..][..position - begin] == source[begin..position]
      ensures source[begin..][position - begin..] == Rest()
    {
    }
  }

  lemma NothingLeft(s: string)
    requires s == "" || s[0] == '\0'
    ensures Next(s) == End && NextOrLine(s) == End
  {
  }

  lemma LineLeft(s: string)
    requires s != "" && s[0] == '\n'
    ensures NextOrLine(s) == LineBreak(s[1..])
  {
  }

  lemma NulIsNoHex()
    ensures !IsHex('\0')
  {
  }

  lemma PrependNothing(r: Option<(string, string)>)
    ensures Prepend("", r) == r
  {
    if r.Some? {
      assert "" + r.value.0 == r.value.0;
    }
  }

  lemma PrependTwice(a: string, b: string, r: Option<(string, string)>)
    ensures Prepend(a, Prepend(b, r)) == Prepend(a + b, r)
  {
    if r.Some? {
      assert a + (b + r.value.0) == a + b + r.value.0;
    }
  }
}
