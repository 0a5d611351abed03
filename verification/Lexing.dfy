/** One token at a time from C source text: blanks and comments, identifiers, preprocessing numbers, literals, and
    punctuators by maximal munch. Texts stand for what is left of the source from the lexer's position on. */
module Lexing {
  import opened Basics
  import opened LiteralEscape

  datatype Prefix = NoPrefix | PrefixL | PrefixU8 | Prefixu | PrefixU

  datatype Token =
    | Identifier(name: string)
    | Number(text: string)
    | Literal(prefix: Prefix, isChar: bool, payload: string)
    | Punctuator(text: string)

  /** What one call of the lexer does: the end of the text, an error, or a token and the text after it. A line feed is a
      token if the lexer is asked for them; a stray is a token of unknown kind. */
  datatype Lexed =
    | End
    | Failed
    | LineBreak(rest: string)
    | Stray(text: string, rest: string)
    | Lexed(token: Token, rest: string)

  /** What has been read is gone. */
  predicate Shrinks(s: string, r: Lexed) {
    !r.End? && !r.Failed? ==> |r.rest| < |s|
  }

  predicate IsSpace(c: char) {
    c == ' ' || c == '\t' || c == '\n' || c == '\r' || c == FF || c == VT
  }

  predicate IsDigit(c: char) {
    '0' <= c <= '9'
  }

  predicate IsNonDigit(c: char) {
    'a' <= c <= 'z' || 'A' <= c <= 'Z' || c == '_' || c == '$'
  }

  predicate IsWordChar(c: char) {
    IsNonDigit(c) || IsDigit(c)
  }

  // ---------------------------------------------------------------- scanning

  function WordLength(s: string): (n: nat)
    ensures n <= |s|
  {
    if s == "" || !IsWordChar(s[0]) then 0 else 1 + WordLength(s[1..])
  }

  predicate IsExponent(c: char) {
    c == 'e' || c == 'E' || c == 'p' || c == 'P'
  }

  predicate IsSign(c: char) {
    c == '+' || c == '-'
  }

  /** How many further characters a preprocessing number takes. */
  function NumberLength(s: string): (n: nat)
    ensures n <= |s|
    decreases |s|
  {
    if IsExponent(At(s, 0)) && IsSign(At(s, 1)) then 2 + NumberLength(s[2..])
    else if s != "" && (IsWordChar(s[0]) || s[0] == '.') then 1 + NumberLength(s[1..])
    else if At(s, 0) == '\'' && IsWordChar(At(s, 1)) then 1 + NumberLength(s[1..])
    else 0
  }

  /** The length of the punctuator that starts with these three characters, or 0. */
  function PunctuatorLength(a: char, b: char, c: char): (n: nat)
    ensures n <= 3
  {
    if a == '.' then (if b == '.' && c == '.' then 3 else 1)
    else if a == '&' then (if b == '&' || b == '=' then 2 else 1)
    else if a == '|' then (if b == '|' || b == '=' then 2 else 1)
    else if a == '<' then (if b == '<' then (if c == '=' then 3 else 2) else if b == '=' then 2 else 1)
    else if a == '>' then (if b == '>' then (if c == '=' then 3 else 2) else if b == '=' then 2 else 1)
    else if a == '=' || a == '!' || a == '*' || a == '/' || a == '%' || a == '^' then (if b == '=' then 2 else 1)
    else if a == '+' then (if b == '+' || b == '=' then 2 else 1)
    else if a == '-' then (if b == '=' || b == '-' || b == '>' then 2 else 1)
    else if a == '#' || a == ':' || a == '?' || a == '(' || a == ')' || a == '{' || a == '}' || a == '[' || a == ']'
            || a == ';' || a == '~' || a == ',' then 1
    else 0
  }

  /** The text after a line comment's slashes, from its newline on. */
  function SkipLine(s: string): (r: string)
    ensures |r| <= |s|
  {
    if s == "" || s[0] == '\n' || s[0] == '\0' then s else SkipLine(s[1..])
  }

  /** The text after a block comment's opening, past its end; None if it has none. */
  function SkipBlock(s: string): (r: Option<string>)
    ensures r.Some? ==> |r.value| <= |s|
  {
    if At(s, 0) == '\0' then None
    else if s[0] == '*' && At(s, 1) == '/' then Some(s[2..])
    else SkipBlock(s[1..])
  }

  function PrefixText(p: Prefix): string {
    match p
    case NoPrefix => "" case PrefixL => "L" case PrefixU8 => "u8" case Prefixu => "u" case PrefixU => "U"
  }

  predicate IsQuote(c: char) {
    c == '\"' || c == '\''
  }

  /** The encoding prefix of the literal a text starts with; None if the text starts with no literal. */
  function LiteralStart(s: string): (r: Option<Prefix>)
    ensures r.Some? ==> |PrefixText(r.value)| < |s| && IsQuote(s[|PrefixText(r.value)|]) && PrefixText(r.value) <= s
  {
    if At(s, 0) == 'u' && At(s, 1) == '8' && IsQuote(At(s, 2)) then Some(PrefixU8)
    else if IsQuote(At(s, 1)) && s[0] == 'L' then Some(PrefixL)
    else if IsQuote(At(s, 1)) && s[0] == 'u' then Some(Prefixu)
    else if IsQuote(At(s, 1)) && s[0] == 'U' then Some(PrefixU)
    else if IsQuote(At(s, 0)) then Some(NoPrefix)
    else None
  }

  function ReadLiteral(s: string, p: Prefix): (r: Lexed)
    requires |PrefixText(p)| < |s|
    ensures Shrinks(s, r) && !r.LineBreak?
  {
    var quote, body := s[|PrefixText(p)|], s[|PrefixText(p)| + 1..];
    match ReadBody(body, quote)
    case None => (match BodyStop(body, quote) case None => Failed case Some(rest) => Stray([quote], rest))
    case Some((payload, rest)) => Lexed(Literal(p, quote == '\'', payload), rest)
  }

  /** The next token of a text, line feeds being blanks. */
  function Next(s: string): (r: Lexed)
    ensures Shrinks(s, r) && !r.LineBreak?
    decreases |s|
  {
    if At(s, 0) == '\0' then End
    else if s[0] == '/' && At(s, 1) == '/' then Next(SkipLine(s[2..]))
    else if s[0] == '/' && At(s, 1) == '*' then
      (match SkipBlock(s[2..]) case None => Failed case Some(rest) => Next(rest))
    else if IsSpace(s[0]) then Next(s[1..])
    else if s[0] == '\\' && At(s, 1) == '\n' then Next(s[2..])
    else NextVisible(s)
  }

  /** The next token or line feed of a text. */
  function NextOrLine(s: string): (r: Lexed)
    ensures Shrinks(s, r)
    decreases |s|
  {
    if At(s, 0) == '\0' then End
    else if s[0] == '/' && At(s, 1) == '/' then NextOrLine(SkipLine(s[2..]))
    else if s[0] == '/' && At(s, 1) == '*' then
      (match SkipBlock(s[2..]) case None => Failed case Some(rest) => NextOrLine(rest))
    else if s[0] == '\n' then LineBreak(s[1..])
    else if IsSpace(s[0]) then NextOrLine(s[1..])
    else if s[0] == '\\' && At(s, 1) == '\n' then NextOrLine(s[2..])
    else NextVisible(s)
  }

  /** Asking for line feeds changes nothing but that they are handed out: the next token is the same, or the one after
      the line feed. */
  lemma {:induction false} LineFeedsInBetween(s: string)
    ensures match NextOrLine(s)
            case LineBreak(rest) => Next(s) == Next(rest)
            case r => Next(s) == r
    decreases |s|
  {
    hide NextVisible;
    if At(s, 0) == '\0' {
    } else if s[0] == '/' && At(s, 1) == '/' {
      LineFeedsInBetween(SkipLine(s[2..]));
    } else if s[0] == '/' && At(s, 1) == '*' {
      var rest := SkipBlock(s[2..]);
      if rest.Some? {
        LineFeedsInBetween(rest.value);
      }
    } else if s[0] != '\n' && IsSpace(s[0]) {
      LineFeedsInBetween(s[1..]);
    } else if s[0] == '\\' && At(s, 1) == '\n' {
      LineFeedsInBetween(s[2..]);
    }
  }

  /** A character that starts no token is one of unknown kind; a lone backslash takes the next character with it. */
  function StrayLength(s: string): (n: nat)
    requires s != ""
    ensures 0 < n <= |s|
  {
    if s[0] == '\\' && |s| > 1 then 2 else 1
  }

  /** The token a text starts with. */
  function NextVisible(s: string): (r: Lexed)
    requires s != ""
    ensures Shrinks(s, r) && !r.LineBreak?
  {
    if LiteralStart(s).Some? then ReadLiteral(s, LiteralStart(s).value)
    else if IsDigit(s[0]) || (s[0] == '.' && IsDigit(At(s, 1))) then
      (var n := 1 + NumberLength(s[1..]); Lexed(Number(s[..n]), s[n..]))
    else if IsNonDigit(s[0]) then
      (var n := 1 + WordLength(s[1..]); Lexed(Identifier(s[..n]), s[n..]))
    else PunctuatorOrStray(s)
  }

  function PunctuatorOrStray(s: string): (r: Lexed)
    requires s != ""
    ensures Shrinks(s, r) && !r.LineBreak?
  {
    var n := PunctuatorLength(s[0], At(s, 1), At(s, 2));
    if n == 0 || n > |s| then Stray(s[..1], s[StrayLength(s)..]) else Lexed(Punctuator(s[..n]), s[n..])
  }

  /** All the tokens of a text; None if lexing fails or there is one of unknown kind. */
  function LexAll(s: string): Option<seq<Token>>
    decreases |s|
  {
    match Next(s)
    case End => Some([])
    case Failed => None
    case LineBreak(_) => None
    case Stray(_, _) => None
    case Lexed(t, rest) =>
      match LexAll(rest)
      case None => None
      case Some(ts) => Some([t] + ts)
  }

  // ---------------------------------------------------------------- what is skipped, and what stops a word

  /** The blanks by their codes; a line feed is one only where line feeds are not asked for, and a backslash in front of
      one always goes with it. */
  lemma BlanksAreSkipped(s: string)
    ensures forall c :: c as int in {9, 11, 12, 13, 32} ==> Next([c] + s) == Next(s) && NextOrLine([c] + s) == NextOrLine(s)
    ensures Next("\n" + s) == Next(s) && NextOrLine("\n" + s) == LineBreak(s)
    ensures Next("\\\n" + s) == Next(s) && NextOrLine("\\\n" + s) == NextOrLine(s)
    ensures Next("") == NextOrLine("") == End
  {
    assert ("\n" + s)[1..] == s && ("\\\n" + s)[2..] == s;
    forall c | c as int in {9, 11, 12, 13, 32} ensures Next([c] + s) == Next(s) && NextOrLine([c] + s) == NextOrLine(s) {
      assert ([c] + s)[1..] == s;
    }
  }

  /** A line comment reaches up to the line feed, which stays, or to the end of the text. */
  lemma LineComments(body: string, s: string)
    requires forall i :: 0 <= i < |body| ==> body[i] != '\n' && body[i] != '\0'
    ensures Next("//" + (body + ("\n" + s))) == Next(s) && NextOrLine("//" + (body + ("\n" + s))) == LineBreak(s)
    ensures Next("//" + body) == NextOrLine("//" + body) == End
    ensures Next("//" + (body + ("\0" + s))) == NextOrLine("//" + (body + ("\0" + s))) == End
  {
    hide Next, NextOrLine, SkipLine;
    LineSkipped(body, "\n" + s);
    LineSkipped(body, "\0" + s);
    LineSkipped(body, "");
    assert body + "" == body;
    LineOpens(body + ("\n" + s));
    LineOpens(body + ("\0" + s));
    LineOpens(body);
    BlanksAreSkipped(s);
    NothingBehindNul(s);
  }

  lemma LineOpens(t: string)
    ensures Next("//" + t) == Next(SkipLine(t)) && NextOrLine("//" + t) == NextOrLine(SkipLine(t))
  {
    hide NextVisible, SkipLine;
    assert ("//" + t)[2..] == t;
  }

  lemma NothingBehindNul(s: string)
    ensures Next("\0" + s) == NextOrLine("\0" + s) == End
  {
  }

  lemma {:induction false} LineSkipped(body: string, s: string)
    requires forall i :: 0 <= i < |body| ==> body[i] != '\n' && body[i] != '\0'
    requires s == "" || s[0] == '\n' || s[0] == '\0'
    ensures SkipLine(body + s) == s
  {
    if body == "" {
      assert body + s == s;
    } else {
      assert (body + s)[1..] == body[1..] + s;
      LineSkipped(body[1..], s);
    }
  }

  /** A block comment ends at the first star and slash behind its opening, line feeds included; without any it is an
      error. */
  lemma BlockComments(body: string, s: string)
    requires NoBlockEnd(body)
    ensures body == "" || body[|body| - 1] != '*' ==>
              Next("/*" + (body + ("*/" + s))) == Next(s) && NextOrLine("/*" + (body + ("*/" + s))) == NextOrLine(s)
    ensures Next("/*" + body) == NextOrLine("/*" + body) == Failed
    ensures Next("/*" + (body + ("\0" + s))) == NextOrLine("/*" + (body + ("\0" + s))) == Failed
  {
    hide Next, NextOrLine, SkipBlock, NoBlockEnd;
    BlockOpens(body + ("\0" + s));
    BlockSkipped(body, s);
    BlockOpens(body + ("*/" + s));
    BlockOpens(body);
  }

  lemma BlockOpens(t: string)
    ensures SkipBlock(t) == None ==> Next("/*" + t) == NextOrLine("/*" + t) == Failed
    ensures SkipBlock(t).Some? ==> Next("/*" + t) == Next(SkipBlock(t).value) && NextOrLine("/*" + t) == NextOrLine(SkipBlock(t).value)
  {
    hide NextVisible, SkipBlock;
    assert ("/*" + t)[2..] == t;
  }

  predicate NoBlockEnd(body: string) {
    forall i :: 0 <= i < |body| ==> body[i] != '\0' && (body[i] == '*' ==> i + 1 == |body| || body[i + 1] != '/')
  }

  lemma {:induction false} BlockSkipped(body: string, s: string)
    requires NoBlockEnd(body)
    ensures body == "" || body[|body| - 1] != '*' ==> SkipBlock(body + ("*/" + s)) == Some(s)
    ensures SkipBlock(body) == None && SkipBlock(body + ("\0" + s)) == None
  {
    if body == "" {
      assert body + ("\0" + s) == "\0" + s;
      assert body + ("*/" + s) == "*/" + s && ("*/" + s)[2..] == s;
    } else {
      var t := body + ("*/" + s);
      assert t[1..] == body[1..] + ("*/" + s) && t[0] == body[0];
      assert (body + ("\0" + s))[1..] == body[1..] + ("\0" + s);
      assert |body| > 1 ==> t[1] == body[1] && body[1..][|body| - 2] == body[|body| - 1];
      BlockSkipped(body[1..], s);
    }
  }

  /** The characters of words and numbers, by their codes: digits, letters, the underscore and the dollar sign. */
  lemma WordCharacters(c: char)
    ensures var k := c as int;
            && (IsDigit(c) <==> 48 <= k <= 57)
            && (IsNonDigit(c) <==> 65 <= k <= 90 || 97 <= k <= 122 || k == 95 || k == 36)
            && (IsWordChar(c) <==> IsDigit(c) || IsNonDigit(c))
  {
  }

  /** The encoding prefixes: each makes a literal of its own kind, and any of them without a quote behind it a word. */
  lemma PrefixesByText(q: char, s: string)
    requires q == '"' || q == '\''
    ensures LiteralStart([q] + s) == Some(NoPrefix)
    ensures LiteralStart("L" + ([q] + s)) == Some(PrefixL) && LiteralStart("U" + ([q] + s)) == Some(PrefixU)
    ensures LiteralStart("u" + ([q] + s)) == Some(Prefixu) && LiteralStart("u8" + ([q] + s)) == Some(PrefixU8)
    ensures s == "" || s[0] !in {'"', '\'', '8'} ==> LiteralStart("L" + s) == LiteralStart("U" + s) == LiteralStart("u" + s) == None
  {
  }

  /** A preprocessing number with a digit separator, a full stop and a sign behind its exponent, and what stops it. */
  lemma ExampleNumber()
    ensures NextVisible("0x1'8.p-3+a") == Lexed(Number("0x1'8.p-3"), "+a")
  {
    hide NextVisible, NumberLength;
    var s := "0x1'8.p-3+a";
    NumberSteps("x1'8.p-3+a", "1'8.p-3+a", 1);
    NumberSteps("1'8.p-3+a", "'8.p-3+a", 1);
    NumberSteps("'8.p-3+a", "8.p-3+a", 1);
    ExampleRest();
    assert s[1..] == "x1'8.p-3+a" && s[..9] == "0x1'8.p-3" && s[9..] == "+a";
    NumberHere(s, 9);
  }

  lemma ExampleRest()
    ensures NumberLength("8.p-3+a") == 5
  {
    hide NumberLength;
    NumberSteps("8.p-3+a", ".p-3+a", 1);
    NumberSteps(".p-3+a", "p-3+a", 1);
    NumberSteps("p-3+a", "3+a", 2);
    NumberSteps("3+a", "+a", 1);
    NumberEnds("+a");
  }

  /** One that starts with a full stop. */
  lemma ExampleFraction()
    ensures NextVisible(".5e+1 ") == Lexed(Number(".5e+1"), " ")
  {
    hide NextVisible, NumberLength;
    var s := ".5e+1 ";
    NumberSteps("5e+1 ", "e+1 ", 1);
    NumberSteps("e+1 ", "1 ", 2);
    NumberSteps("1 ", " ", 1);
    NumberEnds(" ");
    assert s[1..] == "5e+1 " && s[..5] == ".5e+1" && s[5..] == " ";
    NumberHere(s, 5);
  }

  lemma NumberHere(s: string, n: nat)
    requires s != "" && s[0] !in {'L', 'u', 'U', '"', '\''} && (48 <= s[0] as int <= 57 || (s[0] == '.' && 48 <= At(s, 1) as int <= 57))
    requires n == 1 + NumberLength(s[1..])
    ensures NextVisible(s) == Lexed(Number(s[..n]), s[n..])
  {
    hide ReadLiteral, PunctuatorOrStray, NumberLength;
  }

  lemma NumberSteps(s: string, t: string, n: nat)
    requires 1 <= n <= |s| && t == s[n..]
    requires n == (if IsExponent(At(s, 0)) && IsSign(At(s, 1)) then 2 else 1)
    requires n == 1 ==> IsWordChar(s[0]) || s[0] == '.' || (s[0] == '\'' && IsWordChar(At(s, 1)))
    ensures NumberLength(s) == n + NumberLength(t)
  {
  }

  lemma NumberEnds(s: string)
    requires s != "" && !IsWordChar(s[0]) && s[0] != '.' && s[0] != '\''
    ensures NumberLength(s) == 0
  {
    assert !IsExponent(s[0]);
  }

  /** A word takes all its characters. */
  lemma WordsAreTaken(w: string, s: string)
    requires w != "" && !(48 <= w[0] as int <= 57)
    requires forall i :: 0 <= i < |w| ==> IsWordChar(w[i])
    requires s == "" || (!IsWordChar(s[0]) && !IsQuote(s[0]))
    ensures NextVisible(w + s) == Lexed(Identifier(w), s)
  {
    hide ReadLiteral, PunctuatorOrStray, WordLength;
    var t := w + s;
    assert t[0] == w[0] && t[1..] == w[1..] + s;
    WordTaken(w[1..], s);
    assert t[..|w|] == w && t[|w|..] == s;
    NoLiteralHere(w, s);
  }

  lemma NoLiteralHere(w: string, s: string)
    requires w != "" && forall i :: 0 <= i < |w| ==> IsWordChar(w[i])
    requires s == "" || (!IsWordChar(s[0]) && !IsQuote(s[0]))
    ensures LiteralStart(w + s) == None
  {
    forall k | 0 <= k < 3 ensures !IsQuote(At(w + s, k)) || k > |w| {
    }
  }

  lemma {:induction false} WordTaken(w: string, s: string)
    requires forall i :: 0 <= i < |w| ==> IsWordChar(w[i])
    requires s == "" || !IsWordChar(s[0])
    ensures WordLength(w + s) == |w|
  {
    hide IsWordChar;
    if w == "" {
      assert w + s == s;
    } else {
      assert (w + s)[1..] == w[1..] + s;
      WordTaken(w[1..], s);
    }
  }

  /** A character that starts nothing is a stray, and a backslash one together with the character behind it. */
  lemma StraysByText(c: char, s: string)
    requires !IsSingle(c) && !IsWordChar(c) && !IsQuote(c)
    ensures NextVisible([c] + s) == Stray([c], if c == '\\' && s != "" then s[1..] else s)
  {
    hide ReadLiteral, NumberLength, WordLength, PunctuatorLength, IsSingle;
    var t := [c] + s;
    assert t[..1] == [c] && t[1..] == s && (s != "" ==> t[2..] == s[1..]);
    LengthIsOfAPunctuator(c, At(t, 1), At(t, 2));
    SingleStop(c);
  }

  lemma SingleStop(c: char)
    requires !IsSingle(c)
    ensures c != '.'
  {
  }

  // ---------------------------------------------------------------- punctuators

  predicate IsSingle(a: char) {
    a in {'.', '&', '|', '<', '>', '=', '!', '*', '/', '%', '^', '+', '-', '#', ':', '?', '(', ')', '{', '}', '[', ']', ';',
          '~', ','}
  }

  /** The punctuators of C, without digraphs and with # alone standing for ##: single characters, a character and an
      equals sign, doubled characters, the arrow, the shift assignments and the ellipsis. */
  predicate IsPunctuator(p: string) {
    if |p| == 1 then IsSingle(p[0])
    else if |p| == 2 then IsPair(p[0], p[1])
    else |p| == 3 && IsTriple(p[0], p[1], p[2])
  }

  predicate IsPair(a: char, b: char) {
    (b == '=' && a in {'&', '|', '<', '>', '=', '!', '*', '/', '%', '^', '+', '-'}) || (b == a && a in {'&', '|', '<', '>', '+', '-'}) || (a == '-' && b == '>')
  }

  predicate IsTriple(a: char, b: char, c: char) {
    (a == b && c == '=' && (a == '<' || a == '>')) || (a == '.' && b == '.' && c == '.')
  }

  lemma LengthIsOfAPunctuator(a: char, b: char, c: char)
    ensures var n := PunctuatorLength(a, b, c);
            (n >= 1 <==> IsSingle(a)) && (n == 2 ==> IsPair(a, b)) && (n == 3 ==> IsTriple(a, b, c))
    ensures IsPair(a, b) ==> PunctuatorLength(a, b, c) >= 2
    ensures IsTriple(a, b, c) ==> PunctuatorLength(a, b, c) == 3
    ensures PunctuatorLength(a, b, '\0') <= 2 && PunctuatorLength(a, '\0', '\0') <= 1
  {
  }

  /** The chain of character tests takes the longest punctuator the text starts with. */
  lemma MaximalMunch(s: string, p: string)
    requires IsPunctuator(p) && p <= s
    ensures var n := PunctuatorLength(At(s, 0), At(s, 1), At(s, 2));
            |p| <= n <= |s| && IsPunctuator(s[..n])
  {
    hide PunctuatorLength, IsPair, IsTriple;
    assert p[0] == s[0];
    LengthIsOfAPunctuator(At(s, 0), At(s, 1), At(s, 2));
    if |p| >= 2 {
      assert p[1] == s[1];
      PairHead(p[0], p[1]);
    }
    if |p| == 3 {
      assert p[2] == s[2];
      TripleHead(p[0], p[1], p[2]);
    }
  }

  lemma PairHead(a: char, b: char)
    ensures IsPair(a, b) ==> IsSingle(a)
  {
  }

  lemma TripleHead(a: char, b: char, c: char)
    ensures IsTriple(a, b, c) ==> IsSingle(a)
  {
  }

  /** A punctuator starts no other kind of token. */
  lemma FirstOfPunctuator(p: string)
    requires IsPunctuator(p)
    ensures IsSingle(p[0])
    ensures |p| == PunctuatorLength(p[0], At(p, 1), At(p, 2))
    ensures p[0] == '/' ==> At(p, 1) != '/' && At(p, 1) != '*'
    ensures p[0] == '.' ==> !IsDigit(At(p, 1))
  {
    hide PunctuatorLength;
    LengthIsOfAPunctuator(p[0], At(p, 1), At(p, 2));
  }

  lemma SingleIsNothingElse(a: char)
    requires IsSingle(a)
    ensures !IsSpace(a) && !IsWordChar(a) && !IsQuote(a) && a != '\\' && a != '\0'
  {
  }
}
