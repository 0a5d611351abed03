/** Printing preprocessed tokens with just enough blanks, and lexing the text again: exactly which token sequences
    come back. */
module PrintRelex {
  import opened Basics
  import opened LiteralEscape
  import opened Lexing

  // ---------------------------------------------------------------- printing

  function Spelling(t: Token): (s: string)
    ensures t.Literal? ==> |s| >= 2
  {
    match t
    case Identifier(name) => name
    case Number(text) => text
    case Punctuator(text) => text
    case Literal(p, isChar, payload) => PrefixText(p) + ([Quote(isChar)] + (Escape(payload, isChar) + [Quote(isChar)]))
  }

  predicate IsPastablePair(a: char, b: char) {
    (b == '=' && a in {'<', '>', '=', '!', '+', '-', '*', '/', '%', '&', '^', '|'}) ||
    (b == a && a in {'<', '>', '&', '|', '+', '-', '#', '/', ':'}) ||
    (a == '-' && b == '>') || (a == '/' && b == '*') ||
    (a == '<' && b == ':') || (a == ':' && b == '>') || (a == '<' && b == '%') || (a == '%' && b == '>') ||
    (a == '%' && b == ':')
  }

  /** Whether a blank is forced between two spellings. */
  predicate WouldPaste(prev: string, next: string) {
    prev != "" && next != "" && WouldPasteChars(prev[0], prev[|prev| - 1], next[0])
  }

  predicate WouldPasteChars(first: char, a: char, b: char) {
    (IsWordChar(a) && IsWordChar(b)) ||
    (IsDigit(a) && b == '.') ||
    (a == '.' && (IsDigit(b) || b == '.')) ||
    (IsExponent(a) && IsSign(b) && IsDigit(first)) ||
    IsPastablePair(a, b)
  }

  /** A token with the blank it had in front of it, and the line feeds written there. */
  datatype Item = Item(token: Token, space: bool, breaks: nat)

  function LineFeeds(n: nat): string {
    if n == 0 then "" else "\n" + LineFeeds(n - 1)
  }

  /** What is written in front of a token that follows another. */
  function Lead(prev: Token, item: Item): string {
    if item.breaks > 0 then LineFeeds(item.breaks)
    else if item.space || WouldPaste(Spelling(prev), Spelling(item.token)) then " "
    else ""
  }

  /** The pairs that are kept apart, as they are listed. */
  const PastablePairs := ["<<", ">>", "<=", ">=", "==", "!=", "&&", "||", "->", "++", "--", "+=", "-=", "*=", "/=", "%=", "&=", "^=",
                          "|=", "##", "//", "/*", "<:", ":>", "<%", "%>", "%:", "::"]

  lemma PastablePairsAreListed(a: char, b: char)
    ensures IsPastablePair(a, b) <==> [a, b] in PastablePairs
  {
    forall i | 0 <= i < |PastablePairs| ensures IsPastablePair(PastablePairs[i][0], PastablePairs[i][1]) && |PastablePairs[i]| == 2 {
    }
    if IsPastablePair(a, b) {
      PairIsListed(a, b);
    }
  }

  lemma PairIsListed(a: char, b: char)
    requires IsPastablePair(a, b)
    ensures [a, b] in PastablePairs
  {
    var place := if b == '=' then (if a == '<' then 2 else if a == '>' then 3 else if a == '=' then 4 else if a == '!' then 5
                                   else if a == '+' then 11 else if a == '-' then 12 else if a == '*' then 13 else if a == '/' then 14
                                   else if a == '%' then 15 else if a == '&' then 16 else if a == '^' then 17 else 18)
                 else if a == '<' then (if b == '<' then 0 else if b == ':' then 22 else 24)
                 else if a == '>' then 1 else if a == '&' then 6 else if a == '|' then 7
                 else if a == '-' then (if b == '>' then 8 else 10) else if a == '+' then 9 else if a == '#' then 19
                 else if a == '/' then (if b == '/' then 20 else 21)
                 else if a == ':' then (if b == '>' then 23 else 27) else if b == '>' then 25 else 26;
    assert PastablePairs[place] == [a, b];
  }

  /** What stands between two tokens: the line feeds there are, else a blank if the second had one in front of it or the two
      would paste, else nothing. Two spellings would paste if word characters meet, a digit a full stop, a full stop a digit or
      another, the sign of a number's exponent, or a listed pair. */
  lemma LeadByCause(prev: Token, item: Item)
    ensures item.breaks > 0 ==> |Lead(prev, item)| == item.breaks && forall c :: c in Lead(prev, item) ==> c == '\n'
    ensures item.breaks == 0 && item.space ==> Lead(prev, item) == " "
    ensures var p, q := Spelling(prev), Spelling(item.token);
            item.breaks == 0 && !item.space && p != "" && q != "" ==>
              var a, b := p[|p| - 1], q[0];
              Lead(prev, item) ==
                if (IsWordChar(a) && IsWordChar(b)) || (a == '.' && (IsDigit(b) || b == '.')) || (IsDigit(a) && b == '.')
                   || (a in {'e', 'E', 'p', 'P'} && b in {'+', '-'} && IsDigit(p[0])) || [a, b] in PastablePairs
                then " " else ""
  {
    hide Spelling, PastablePairs, IsWordChar, IsPastablePair, IsDigit;
    LineFeedsOnly(item.breaks);
    var p, q := Spelling(prev), Spelling(item.token);
    if p != "" && q != "" {
      PastablePairsAreListed(p[|p| - 1], q[0]);
    }
  }

  lemma {:induction false} LineFeedsOnly(n: nat)
    ensures |LineFeeds(n)| == n && forall c :: c in LineFeeds(n) ==> c == '\n'
  {
    if n > 0 {
      LineFeedsOnly(n - 1);
    }
  }

  /** The text of a token sequence from its first token on; some line feeds end it. */
  function Print(items: seq<Item>, end: nat): string
    decreases |items|, 0
  {
    if items == [] then LineFeeds(end) else Spelling(items[0].token) + Tail(items[0].token, items[1..], end)
  }

  function Tail(prev: Token, items: seq<Item>, end: nat): string
    decreases |items|, 1
  {
    (if items == [] then "" else Lead(prev, items[0])) + Print(items, end)
  }

  /** The whole text: the first token starts a line, and no blank is written in front of it. */
  function Printed(items: seq<Item>, end: nat): string {
    (if items == [] then "" else LineFeeds(items[0].breaks)) + Print(items, end)
  }

  // ---------------------------------------------------------------- what the preprocessor hands out

  /** Where a token is reported: the file it is in (-1 if there is none), and the name and line shown. */
  datatype Place = Place(fileId: int, file: string, line: nat)

  datatype Event = LineEnd | Word(token: Token, startOfLine: bool, space: bool, at: Place)

  /** The token printed last. */
  datatype Last = Nothing | Was(fileId: int, line: nat)

  /** Whether a token is not where the last one and the line ends since then would put it. */
  predicate Moved(last: Last, lineEnds: nat, p: Place) {
    p.file != "" && p.line > 0 && (last.Nothing? || p.fileId != last.fileId || p.line != last.line + lineEnds)
  }

  /** The tokens to print, with the line feeds in front of each: those handed out, or else one if the token starts a line
      or has moved. `first` says that nothing has been printed. */
  function Items(events: seq<Event>, last: Last, lineEnds: nat, first: bool): seq<Item> {
    if events == [] then []
    else
      match events[0]
      case LineEnd => Items(events[1..], last, lineEnds + 1, first)
      case Word(t, startOfLine, space, p) =>
        [Item(t, space, Breaks(lineEnds, !first && (startOfLine || Moved(last, lineEnds, p))))]
        + Items(events[1..], Was(p.fileId, p.line), 0, false)
  }

  function Breaks(lineEnds: nat, forced: bool): nat {
    if lineEnds == 0 && forced then 1 else lineEnds
  }

  /** The line feeds at the end: those handed out, or else one if anything has been printed. */
  function EndBreaks(events: seq<Event>, lineEnds: nat, first: bool): nat {
    if events == [] then Breaks(lineEnds, !first)
    else if events[0].LineEnd? then EndBreaks(events[1..], lineEnds + 1, first)
    else EndBreaks(events[1..], 0, false)
  }

  /** The line feeds in front of a token, whatever stands behind it: as many as line ends were handed out; without any, one if
      the token starts a line, or is shown at a file and line, and those are not where the last token was; the first token of
      all has none of its own. A token not shown anywhere never moves. */
  lemma BreaksByCause(t: Token, startOfLine: bool, space: bool, p: Place, more: seq<Event>, fileId: int, line: nat, lineEnds: nat)
    ensures var e := Word(t, startOfLine, space, p);
            var last := Was(fileId, line);
            && (lineEnds > 0 ==> Items([e] + more, last, lineEnds, false)[..1] == [Item(t, space, lineEnds)])
            && Items([e] + more, last, 0, false)[..1]
               == [Item(t, space, if startOfLine || (p.file != "" && p.line >= 1 && (p.fileId != fileId || p.line != line)) then 1 else 0)]
            && Items([e] + more, Nothing, 0, false)[..1]
               == [Item(t, space, if startOfLine || (p.file != "" && p.line >= 1) then 1 else 0)]
            && Items([e] + more, last, lineEnds, true)[..1] == [Item(t, space, lineEnds)]
  {
    assert ([Word(t, startOfLine, space, p)] + more)[0] == Word(t, startOfLine, space, p);
  }

  /** What the preprocessor starts from if a main file is known. */
  function Start(mainFile: Option<int>): Last {
    match mainFile
    case None => Nothing
    case Some(id) => Was(id, 1)
  }

  function Text(events: seq<Event>, mainFile: Option<int>): string {
    Printed(Items(events, Start(mainFile), 0, true), EndBreaks(events, 0, true))
  }

  /** What is still to be written, line feeds handed out included. */
  function Pending(prev: Option<Token>, events: seq<Event>, last: Last, lineEnds: nat): string {
    var items, end := Items(events, last, lineEnds, prev.None?), EndBreaks(events, lineEnds, prev.None?);
    match prev
    case None => Printed(items, end)
    case Some(t) => Tail(t, items, end)
  }

  lemma {:induction false} OneMoreLineFeed(n: nat)
    ensures LineFeeds(n) + "\n" == LineFeeds(n + 1)
  {
    if n > 0 {
      OneMoreLineFeed(n - 1);
      assert LineFeeds(n) + "\n" == "\n" + (LineFeeds(n - 1) + "\n");
    }
  }

  /** What is written in front of a token, after whatever has been. */
  function LeadIn(prev: Option<Token>, item: Item): string {
    match prev
    case None => LineFeeds(item.breaks)
    case Some(t) => Lead(t, item)
  }

  lemma PendingAtWord(done: string, prev: Option<Token>, events: seq<Event>, last: Last, lineEnds: nat)
    requires events != [] && events[0].Word?
    ensures var items := Items(events, last, lineEnds, prev.None?);
            && items != [] && items[0].token == events[0].token
            && done + Pending(prev, events, last, lineEnds)
               == done + LeadIn(prev, items[0]) + Spelling(events[0].token)
                  + Pending(Some(events[0].token), events[1..], Was(events[0].at.fileId, events[0].at.line), 0)
  {
    hide Spelling, Lead, LineFeeds;
    var t, p := events[0].token, events[0].at;
    var items := Items(events, last, lineEnds, prev.None?);
    var end := EndBreaks(events, lineEnds, prev.None?);
    var more := Items(events[1..], Was(p.fileId, p.line), 0, false);
    assert items == [items[0]] + more && items[1..] == more;
    assert Print(items, end) == Spelling(t) + Tail(t, more, end);
    Regroup(done, LeadIn(prev, items[0]), Spelling(t), Tail(t, more, end));
  }

  lemma Regroup(a: string, b: string, c: string, d: string)
    ensures a + (b + (c + d)) == a + b + c + d
  {
  }

  lemma PendingAtEnd(prev: Option<Token>, last: Last, lineEnds: nat)
    ensures Pending(prev, [], last, lineEnds) == LineFeeds(Breaks(lineEnds, prev.Some?))
  {
  }

  /** The loop that writes the tokens; no line markers are asked for. */
  method Emit(events: seq<Event>, mainFile: Option<int>) returns (out: string)
    ensures out == Text(events, mainFile)
  {
    hide Spelling, WouldPaste, Pending, Items, EndBreaks, LineFeeds;
    out := "";
    var atLineStart := true;
    var lastSpelling := "";
    var haveLastToken, lastFileId := false, -1;
    var lastLine: nat, lineEnds: nat := 0, 0;
    if mainFile.Some? {
      haveLastToken, lastFileId, lastLine := true, mainFile.value, 1;
    }
    ghost var prev: Option<Token> := None;
    ghost var last, done, count: nat := Start(mainFile), "", 0;
    NothingWritten(events, mainFile);
    for i := 0 to |events|
      invariant last == if haveLastToken then Was(lastFileId, lastLine) else Nothing
      invariant haveLastToken ==> lineEnds == count
      invariant prev.Some? ==> haveLastToken && lastSpelling == Spelling(prev.value)
      invariant atLineStart <==> prev.None? || count > 0
      invariant out == done + LineFeeds(count)
      invariant done + Pending(prev, events[i..], last, count) == Text(events, mainFile)
    {
      assert events[i..][0] == events[i] && events[i..][1..] == events[i + 1..];
      match events[i]
      case LineEnd =>
        OneMoreLineFeed(count);
        PendingAtLineEnd(prev, events[i..], last, count);
        assert done + LineFeeds(count) + "\n" == done + (LineFeeds(count) + "\n");
        out := out + "\n";
        count := count + 1;
        atLineStart := true;
        if haveLastToken {
          lineEnds := lineEnds + 1;
        }
      case Word(token, startOfLine, space, at) =>
        var needBreak := false;
        if !haveLastToken {
          needBreak := at.file != "" && at.line > 0;
        } else if at.fileId != lastFileId {
          needBreak := at.file != "" && at.line > 0;
        } else if at.line != lastLine + lineEnds {
          needBreak := at.file != "" && at.line > 0;
        }
        assert needBreak == Moved(last, count, at);
        if needBreak && !atLineStart {
          out := out + "\n";
          atLineStart := true;
        }
        if !atLineStart && startOfLine {
          out := out + "\n";
          atLineStart := true;
        }
        var spelling := Spelling(token);
        if !atLineStart && (space || WouldPaste(lastSpelling, spelling)) {
          out := out + " ";
        }
        WordItem(events[i..], last, count, prev.None?);
        ghost var item := Items(events[i..], last, count, prev.None?)[0];
        FewLineFeeds();
        assert out == done + LeadIn(prev, item);
        PendingAtWord(done, prev, events[i..], last, count);
        out := out + spelling;
        lastSpelling := spelling;
        atLineStart := false;
        haveLastToken, lastFileId, lastLine, lineEnds := true, at.fileId, at.line, 0;
        prev, last, done, count := Some(token), Was(at.fileId, at.line), out, 0;
    }
    PendingAtEnd(prev, last, count);
    FewLineFeeds();
    assert events[|events|..] == [];
    if !atLineStart {
      out := out + "\n";
    }
  }

  lemma NothingWritten(events: seq<Event>, mainFile: Option<int>)
    ensures "" + Pending(None, events[0..], Start(mainFile), 0) == Text(events, mainFile)
    ensures "" == "" + LineFeeds(0)
  {
    assert events[0..] == events;
  }

  lemma FewLineFeeds()
    ensures LineFeeds(0) == "" && LineFeeds(1) == "\n"
  {
    assert LineFeeds(1) == "\n" + LineFeeds(0);
  }

  lemma PendingAtLineEnd(prev: Option<Token>, events: seq<Event>, last: Last, lineEnds: nat)
    requires events != [] && events[0].LineEnd?
    ensures Pending(prev, events, last, lineEnds) == Pending(prev, events[1..], last, lineEnds + 1)
  {
  }

  lemma WordItem(events: seq<Event>, last: Last, lineEnds: nat, first: bool)
    requires events != [] && events[0].Word?
    ensures var e, items := events[0], Items(events, last, lineEnds, first);
            items != []
            && items[0] == Item(e.token, e.space, Breaks(lineEnds, !first && (e.startOfLine || Moved(last, lineEnds, e.at))))
  {
  }

  // ---------------------------------------------------------------- the tokens of a preprocessor

  /** Tokens as the lexer makes them. */
  predicate IsToken(t: Token) {
    match t
    case Identifier(name) => name != "" && IsNonDigit(name[0]) && WordLength(name) == |name|
    case Number(text) =>
      text != "" && (IsDigit(text[0]) || (text[0] == '.' && IsDigit(At(text, 1)))) && NumberLength(text[1..]) == |text| - 1
    case Literal(_, _, payload) => IsPayload(payload)
    case Punctuator(text) => IsPunctuator(text)
  }

  predicate AreTokens(items: seq<Item>) {
    forall i :: 0 <= i < |items| ==> IsToken(items[i].token)
  }

  predicate IsPrefixName(name: string) {
    name == "L" || name == "u" || name == "U" || name == "u8"
  }

  /** Whether a preprocessing number whose last character is x goes on over the characters c and d. */
  predicate ContinuesNumber(x: char, c: char, d: char) {
    (IsExponent(x) && IsSign(c)) || IsWordChar(c) || c == '.' || (c == '\'' && IsWordChar(d))
  }

  /** The pairs that run together when nothing is between them, although no blank is forced: a number and characters
      that continue it, and an encoding prefix in front of a literal without one. */
  predicate Bleeds(t: Token, u: Token) {
    match t
    case Number(text) =>
      text != "" && ContinuesNumber(text[|text| - 1], At(Spelling(u), 0), At(Spelling(u), 1))
    case Identifier(name) => IsPrefixName(name) && u.Literal? && u.prefix == NoPrefix
    case _ => false
  }

  predicate CleanToken(t: Token) {
    t.Literal? ==> Clean(t.payload)
  }

  /** The condition under which a printed sequence can be read back. */
  predicate Faithful(items: seq<Item>) {
    items == [] ||
    (CleanToken(items[0].token) &&
     (|items| > 1 ==> !(Lead(items[0].token, items[1]) == "" && Bleeds(items[0].token, items[1].token))) &&
     Faithful(items[1..]))
  }

  function Tokens(items: seq<Item>): seq<Token> {
    if items == [] then [] else [items[0].token] + Tokens(items[1..])
  }

  // ---------------------------------------------------------------- where tokens stop

  lemma {:induction false} WordStops(w: string, text: string)
    requires WordLength(w) == |w| && (text == "" || !IsWordChar(text[0]))
    ensures WordLength(w + text) == |w|
    decreases |w|
  {
    hide IsWordChar;
    if w == "" {
      assert w + text == text;
    } else {
      assert (w + text)[1..] == w[1..] + text;
      WordStops(w[1..], text);
    }
  }

  /** A number in front of a text: x is the character before what is left of the number. */
  lemma {:induction false} NumberStops(n: string, text: string, x: char)
    requires NumberLength(n) == |n|
    requires n == "" ==> !IsExponent(x)
    ensures var last := if n == "" then x else n[|n| - 1];
            if ContinuesNumber(last, At(text, 0), At(text, 1)) then NumberLength(n + text) > |n|
            else NumberLength(n + text) == |n|
    decreases |n|
  {
    hide IsWordChar;
    CharsOfNumbers();
    var s := n + text;
    if n == "" {
      assert s == text;
    } else if |n| == 1 {
      assert s[1..] == text;
      assert n[1..] == "";
    } else if IsExponent(n[0]) && IsSign(n[1]) {
      assert s[2..] == n[2..] + text;
      NumberStops(n[2..], text, n[1]);
    } else {
      assert s[1..] == n[1..] + text;
      NumberStops(n[1..], text, n[0]);
    }
  }

  lemma CharsOfNumbers()
    ensures forall c :: IsSign(c) ==> !IsExponent(c)
    ensures forall c :: IsExponent(c) ==> IsWordChar(c)
    ensures !IsWordChar('\0') && !IsWordChar('\'') && !IsWordChar('.')
    ensures forall c :: IsSign(c) ==> !IsWordChar(c)
  {
  }

  /** Lexing the spelling of a token gives the token back, with the text after it untouched, if the text does not start
      with something the token would run into. */
  predicate Stops(t: Token, text: string) {
    text == "" ||
    match t
    case Identifier(name) => !IsWordChar(text[0]) && !(IsPrefixName(name) && IsQuote(text[0]))
    case Number(n) => n != "" && !ContinuesNumber(n[|n| - 1], text[0], At(text, 1))
    case Literal(_, _, _) => true
    case Punctuator(p) => !WouldPaste(p, text)
  }

  function RereadToken(t: Token): Token {
    if t.Literal? then Literal(t.prefix, t.isChar, Reread(t.payload)) else t
  }

  lemma TokenStart(t: Token)
    requires IsToken(t)
    ensures var s := Spelling(t); s != "" && !IsSpace(s[0]) && s[0] != '\0' && s[0] != '\\'
    ensures !t.Punctuator? ==> Spelling(t)[0] != '/'
    ensures IsQuote(Spelling(t)[0]) <==> t.Literal? && t.prefix == NoPrefix
  {
    hide Escape, WordLength, NumberLength, IsPayload;
    match t
    case Punctuator(p) =>
      FirstOfPunctuator(p);
      SingleIsNothingElse(p[0]);
    case _ =>
  }

  /** Blanks in front of a text change nothing. */
  lemma NextAfterBlank(c: char, s: string)
    requires c == ' ' || c == '\n'
    ensures Next([c] + s) == Next(s)
  {
    assert ([c] + s)[1..] == s;
  }

  lemma NextIsVisible(t: Token, text: string)
    requires IsToken(t)
    requires t.Punctuator? && text != "" ==> !WouldPaste(t.text, text)
    ensures Next(Spelling(t) + text) == NextVisible(Spelling(t) + text)
  {
    hide NextVisible, WouldPaste, WordLength, NumberLength, Escape, IsPunctuator;
    var s := Spelling(t) + text;
    TokenStart(t);
    assert s[0] == Spelling(t)[0];
    if t.Punctuator? && s[0] == '/' {
      assert At(s, 1) != '/' && At(s, 1) != '*' by { SlashStops(t.text, text); }
    }
  }

  lemma SlashStops(p: string, text: string)
    requires IsPunctuator(p) && p[0] == '/'
    requires text != "" ==> !WouldPaste(p, text)
    ensures At(p + text, 1) != '/' && At(p + text, 1) != '*'
  {
    FirstOfPunctuator(p);
  }

  lemma PunctuatorLengthStops(p: string, text: string)
    requires IsPunctuator(p)
    requires text != "" ==> !WouldPaste(p, text)
    ensures var s := p + text; PunctuatorLength(At(s, 0), At(s, 1), At(s, 2)) == |p|
    ensures p[0] == '.' ==> !IsDigit(At(p + text, 1))
  {
    FirstOfPunctuator(p);
    var s := p + text;
    if |p| == 1 {
      SingleStops(p[0], At(s, 1), At(s, 2));
    } else if |p| == 2 {
      PairStops(p[0], p[1], At(s, 2));
    }
  }

  lemma SingleStops(a: char, b: char, c: char)
    requires IsSingle(a) && !WouldPasteChars(a, a, b)
    ensures PunctuatorLength(a, b, c) == 1 && (a == '.' ==> !IsDigit(b))
  {
  }

  lemma PairStops(a: char, b: char, c: char)
    requires IsPair(a, b) && !WouldPasteChars(a, b, c)
    ensures PunctuatorLength(a, b, c) == 2
  {
  }

  lemma PunctuatorAgain(p: string, text: string)
    requires IsPunctuator(p)
    requires text != "" ==> !WouldPaste(p, text)
    ensures NextVisible(p + text) == Lexed(Punctuator(p), text)
  {
    hide PunctuatorLength, WouldPaste, IsSingle, NumberLength, WordLength, ReadLiteral;
    var s := p + text;
    FirstOfPunctuator(p);
    SingleIsNothingElse(p[0]);
    PunctuatorLengthStops(p, text);
    assert s[..|p|] == p && s[|p|..] == text;
  }

  lemma WordAgain(name: string, text: string)
    requires IsToken(Identifier(name)) && Stops(Identifier(name), text)
    ensures NextVisible(name + text) == Lexed(Identifier(name), text)
  {
    hide PunctuatorLength, WouldPaste, NumberLength, ReadLiteral;
    var s := name + text;
    assert s[1..] == name[1..] + text;
    WordStops(name[1..], text);
    assert s[..|name|] == name && s[|name|..] == text;
    NoLiteral(name, text);
  }

  lemma NoLiteral(name: string, text: string)
    requires IsToken(Identifier(name)) && Stops(Identifier(name), text)
    ensures LiteralStart(name + text) == None
  {
    if |name| >= 2 {
      assert IsWordChar(name[1]) by { WordChars(name, 1); }
    }
    if |name| >= 3 {
      assert IsWordChar(name[2]) by { WordChars(name, 2); }
    }
  }

  lemma {:induction false} WordChars(w: string, i: nat)
    requires WordLength(w) == |w| && i < |w|
    ensures IsWordChar(w[i])
  {
    if i > 0 {
      WordChars(w[1..], i - 1);
    }
  }

  lemma NumberAgain(n: string, text: string)
    requires IsToken(Number(n))
    ensures Stops(Number(n), text) ==> NextVisible(n + text) == Lexed(Number(n), text)
    ensures text != "" && !Stops(Number(n), text) ==> forall rest :: NextVisible(n + text) != Lexed(Number(n), rest)
  {
    hide PunctuatorLength, WouldPaste, NumberLength, ReadLiteral, WordLength, IsWordChar;
    var s := n + text;
    assert s[1..] == n[1..] + text;
    CharsOfNumbers();
    assert !IsExponent(n[0]) && LiteralStart(s) == None by { NumberHead(n[0], s); }
    NumberStops(n[1..], text, n[0]);
    assert s[..|n|] == n && s[|n|..] == text;
  }

  lemma NumberHead(a: char, s: string)
    requires (IsDigit(a) || a == '.') && s != "" && s[0] == a
    ensures !IsExponent(a) && LiteralStart(s) == None
  {
  }

  lemma LiteralAgain(t: Token, text: string)
    requires t.Literal? && IsPayload(t.payload)
    ensures NextVisible(Spelling(t) + text) == Lexed(RereadToken(t), text)
  {
    hide Escape, ReadBody, PunctuatorLength, NumberLength, WordLength, Reread, IsPayload;
    var q := Quote(t.isChar);
    var body := Escape(t.payload, t.isChar) + ([q] + text);
    var s := Spelling(t) + text;
    var p := PrefixText(t.prefix);
    SpellingOfLiteral(t, text, body);
    assert s[|p| + 1..] == body;
    assert s[..|p|] == p && s[|p|] == q;
    assert LiteralStart(s) == Some(t.prefix) by { PrefixRead(t.prefix, q, s); }
    EscapedLiteralIsReread(t.payload, t.isChar, text);
  }

  lemma SpellingOfLiteral(t: Token, text: string, body: string)
    requires t.Literal? && body == Escape(t.payload, t.isChar) + ([Quote(t.isChar)] + text)
    ensures Spelling(t) + text == PrefixText(t.prefix) + ([Quote(t.isChar)] + body)
  {
    hide Escape;
    var q, e := [Quote(t.isChar)], Escape(t.payload, t.isChar);
    assert (PrefixText(t.prefix) + (q + (e + q))) + text == PrefixText(t.prefix) + (q + (e + (q + text)));
  }

  lemma PrefixRead(p: Prefix, q: char, s: string)
    requires IsQuote(q) && |PrefixText(p)| < |s| && s[..|PrefixText(p)|] == PrefixText(p) && s[|PrefixText(p)|] == q
    ensures LiteralStart(s) == Some(p)
  {
    if p != NoPrefix {
      assert s[..|PrefixText(p)|][0] == s[0];
      if p == PrefixU8 {
        assert s[..2][1] == s[1];
      }
    }
  }

  /** Lexing the spelling of a token, with a text after it that does not continue it, gives the token (its payload as
      the lexer rereads it) and leaves the text. */
  lemma TokenAgain(t: Token, text: string)
    requires IsToken(t) && Stops(t, text)
    ensures Next(Spelling(t) + text) == Lexed(RereadToken(t), text)
  {
    hide NextVisible, Next, Reread, WouldPaste, WordLength, NumberLength, IsPunctuator;
    NextIsVisible(t, text);
    match t
    case Identifier(name) => WordAgain(name, text);
    case Number(n) => NumberAgain(n, text);
    case Literal(_, _, _) => LiteralAgain(t, text);
    case Punctuator(p) => PunctuatorAgain(p, text);
  }

  /** When no blank is forced between two spellings, the first token stops in front of the second unless they bleed. */
  lemma StopsUnlessBleeds(t: Token, u: Token, more: string)
    requires IsToken(t) && IsToken(u) && !WouldPaste(Spelling(t), Spelling(u))
    ensures Stops(t, Spelling(u) + more) <==> !Bleeds(t, u)
  {
    hide WordLength, NumberLength, IsPunctuator;
    TokenStart(u);
    var text := Spelling(u) + more;
    assert text[0] == Spelling(u)[0];
    match t
    case Identifier(name) =>
      WordEnds(name);
    case Number(n) =>
      hide Escape;
      if text[0] == '\'' {
        assert u.Literal? && text[1] == Spelling(u)[1];
      }
    case Literal(_, _, _) =>
    case Punctuator(p) =>
  }

  lemma WordEnds(name: string)
    requires IsToken(Identifier(name))
    ensures IsWordChar(name[|name| - 1])
  {
    WordChars(name, |name| - 1);
  }

  /** A token that bleeds into the next one is not what the lexer finds. */
  lemma BleedingIsVisible(t: Token, u: Token, more: string)
    requires IsToken(t) && IsToken(u) && Bleeds(t, u) && !WouldPaste(Spelling(t), Spelling(u))
    ensures forall rest :: Next(Spelling(t) + (Spelling(u) + more)) != Lexed(t, rest)
  {
    hide Next, NextVisible, WouldPaste, WordLength, NumberLength;
    var text := Spelling(u) + more;
    TokenStart(u);
    StopsUnlessBleeds(t, u, more);
    NextIsVisible(t, text);
    if t.Number? {
      NumberAgain(t.text, text);
    } else {
      PrefixTaken(t.name, text);
    }
  }

  lemma PrefixTaken(name: string, text: string)
    requires IsPrefixName(name) && text != "" && IsQuote(text[0])
    ensures forall rest :: NextVisible(name + text) != Lexed(Identifier(name), rest)
  {
    hide ReadBody;
    assert LiteralStart(name + text).Some?;
  }

  // ---------------------------------------------------------------- the main result

  lemma {:induction false} LineFeedsAreBlank(n: nat, text: string)
    ensures LexAll(LineFeeds(n) + text) == LexAll(text)
  {
    hide Next;
    if n == 0 {
      assert LineFeeds(0) + text == text;
    } else {
      LineFeedsAreBlank(n - 1, text);
      NextAfterBlank('\n', LineFeeds(n - 1) + text);
      assert LineFeeds(n) + text == ['\n'] + (LineFeeds(n - 1) + text);
    }
  }

  lemma TailLexes(prev: Token, items: seq<Item>, end: nat)
    ensures LexAll(Tail(prev, items, end)) == LexAll(Print(items, end))
  {
    hide Next, Spelling, WouldPaste, LineFeeds, LexAll, Print;
    var text := Print(items, end);
    var lead := if items == [] then "" else Lead(prev, items[0]);
    if lead == "" {
      assert lead + text == text;
    } else if items[0].breaks > 0 {
      LineFeedsAreBlank(items[0].breaks, text);
    } else {
      BlankLexes(text);
    }
  }

  lemma BlankLexes(text: string)
    ensures LexAll(" " + text) == LexAll(text)
  {
    hide Next;
    NextAfterBlank(' ', text);
    assert " " + text == [' '] + text;
  }

  lemma StopsAtTail(t: Token, items: seq<Item>, end: nat)
    requires IsToken(t) && AreTokens(items)
    requires items != [] ==> !(Lead(t, items[0]) == "" && Bleeds(t, items[0].token))
    ensures Stops(t, Tail(t, items, end))
  {
    hide Bleeds, IsToken, Spelling, Stops, WouldPaste;
    if items == [] {
      assert Tail(t, items, end) == LineFeeds(end);
      if end == 0 {
        NothingStops(t);
      } else {
        BlankStops(t, LineFeeds(end));
      }
    } else {
      var u := items[0].token;
      if Lead(t, items[0]) == "" {
        var more := Tail(u, items[1..], end);
        StopsUnlessBleeds(t, u, more);
        assert Tail(t, items, end) == Spelling(u) + more;
      } else {
        BlankStops(t, Tail(t, items, end));
      }
    }
  }

  lemma NothingStops(t: Token)
    requires IsToken(t)
    ensures Stops(t, "")
  {
    hide WordLength, NumberLength, IsPunctuator;
  }

  lemma BlankStops(t: Token, text: string)
    requires IsToken(t) && text != "" && (text[0] == ' ' || text[0] == '\n')
    ensures Stops(t, text)
  {
    hide WordLength, NumberLength, IsPunctuator;
  }

  predicate LexesTo(text: string, tokens: seq<Token>) {
    LexAll(text) == Some(tokens)
  }

  /** The printed text lexes to the tokens printed. */
  predicate ReadsBack(items: seq<Item>, end: nat) {
    LexesTo(Printed(items, end), Tokens(items))
  }

  /** The print and re-lex round trip, exactly: the printed text lexes to the tokens printed if and only if every
      literal is clean and no two tokens that bleed were joined. */
  lemma RelexExactlyWhenFaithful(items: seq<Item>, end: nat)
    requires AreTokens(items)
    ensures ReadsBack(items, end) <==> Faithful(items)
  {
    hide LexAll, Faithful, Print, LineFeeds;
    PrintRelexes(items, end);
    LineFeedsAreBlank(if items == [] then 0 else items[0].breaks, Print(items, end));
    FewLineFeeds();
  }

  lemma {:induction false} PrintRelexes(items: seq<Item>, end: nat)
    requires AreTokens(items)
    ensures LexesTo(Print(items, end), Tokens(items)) <==> Faithful(items)
    decreases |items|
  {
    hide Next, Spelling, Bleeds, IsToken, Lead, Stops;
    if items != [] {
      var t, rest := items[0].token, items[1..];
      var tail := Tail(t, rest, end);
      assert AreTokens(rest);
      PrintRelexes(rest, end);
      TailLexes(t, rest, end);
      if rest != [] && Lead(t, rest[0]) == "" && Bleeds(t, rest[0].token) {
        NotFaithfulAtHead(items, end);
      } else {
        StopsAtTail(t, rest, end);
        TokenAgain(t, tail);
        CleanIsRereadToken(t);
        assert Print(items, end) == Spelling(t) + tail;
        ConsIsInjective(RereadToken(t), LexAll(tail), t, Tokens(rest));
      }
    } else {
      LineFeedsAreBlank(end, "");
      assert LineFeeds(end) + "" == LineFeeds(end);
      assert LexAll("") == Some([]) by { EmptyLexes(); }
    }
  }

  /** The tokens among what the preprocessor hands out. */
  function Words(events: seq<Event>): seq<Token> {
    if events == [] then []
    else if events[0].LineEnd? then Words(events[1..])
    else [events[0].token] + Words(events[1..])
  }

  /** Whatever the preprocessor hands out: the text written lexes to its tokens if and only if every literal is clean and
      no two tokens that bleed are written with nothing between them. */
  lemma TextReadsBackExactly(events: seq<Event>, mainFile: Option<int>)
    requires forall t :: t in Words(events) ==> IsToken(t)
    ensures LexesTo(Text(events, mainFile), Words(events)) <==> Faithful(Items(events, Start(mainFile), 0, true))
  {
    hide LexesTo, Faithful, Printed, EndBreaks, IsToken;
    var items := Items(events, Start(mainFile), 0, true);
    WordsAreTokens(events, Start(mainFile), 0, true);
    TokensByIndex(items);
    RelexExactlyWhenFaithful(items, EndBreaks(events, 0, true));
  }

  lemma {:induction false} WordsAreTokens(events: seq<Event>, last: Last, lineEnds: nat, first: bool)
    ensures Tokens(Items(events, last, lineEnds, first)) == Words(events)
    decreases |events|
  {
    hide Moved, Breaks;
    if events != [] {
      match events[0]
      case LineEnd => WordsAreTokens(events[1..], last, lineEnds + 1, first);
      case Word(t, startOfLine, space, p) =>
        WordsAreTokens(events[1..], Was(p.fileId, p.line), 0, false);
        var items := Items(events, last, lineEnds, first);
        assert items[1..] == Items(events[1..], Was(p.fileId, p.line), 0, false);
    }
  }

  lemma {:induction false} TokensByIndex(items: seq<Item>)
    ensures |Tokens(items)| == |items| && forall i :: 0 <= i < |items| ==> items[i].token == Tokens(items)[i]
  {
    if items != [] {
      TokensByIndex(items[1..]);
    }
  }

  function Cons(t: Token, r: Option<seq<Token>>): Option<seq<Token>> {
    match r
    case None => None
    case Some(ts) => Some([t] + ts)
  }

  lemma ConsIsInjective(t: Token, r: Option<seq<Token>>, u: Token, us: seq<Token>)
    ensures Cons(t, r) == Some([u] + us) <==> t == u && r == Some(us)
  {
    if r.Some? && [t] + r.value == [u] + us {
      assert ([t] + r.value)[0] == t && ([t] + r.value)[1..] == r.value && ([u] + us)[1..] == us;
    }
  }

  lemma EmptyLexes()
    ensures LexAll("") == Some([])
  {
  }

  lemma CleanIsRereadToken(t: Token)
    requires IsToken(t)
    ensures RereadToken(t) == t <==> CleanToken(t)
  {
    if t.Literal? {
      RereadLength(t.payload);
      if Clean(t.payload) {
        CleanIsReread(t.payload);
      }
    }
  }

  lemma NotFaithfulAtHead(items: seq<Item>, end: nat)
    requires |items| > 1 && IsToken(items[0].token) && IsToken(items[1].token)
    requires Lead(items[0].token, items[1]) == "" && Bleeds(items[0].token, items[1].token)
    ensures !LexesTo(Print(items, end), Tokens(items))
  {
    hide Next, Spelling, Bleeds, IsToken, WouldPaste;
    var t, u := items[0].token, items[1].token;
    var more := Tail(u, items[1..][1..], end);
    assert Print(items[1..], end) == Spelling(u) + more;
    assert Tail(t, items[1..], end) == "" + Print(items[1..], end);
    assert "" + Print(items[1..], end) == Print(items[1..], end);
    assert Print(items, end) == Spelling(t) + (Spelling(u) + more);
    BleedingIsVisible(t, u, more);
    var r := Next(Print(items, end));
    if r.Lexed? {
      assert r == Lexed(r.token, r.rest);
      ConsIsInjective(r.token, LexAll(r.rest), t, Tokens(items[1..]));
    }
  }

  // ---------------------------------------------------------------- consequences

  /** Identifiers and punctuators are always separated well enough. */
  lemma WithoutNumbersAlwaysFaithful(items: seq<Item>, end: nat)
    requires AreTokens(items)
    requires forall i :: 0 <= i < |items| ==> items[i].token.Identifier? || items[i].token.Punctuator?
    ensures ReadsBack(items, end)
  {
    hide Spelling, Next, Print;
    AlwaysFaithful(items);
    RelexExactlyWhenFaithful(items, end);
  }

  lemma {:induction false} AlwaysFaithful(items: seq<Item>)
    requires forall i :: 0 <= i < |items| ==> items[i].token.Identifier? || items[i].token.Punctuator?
    ensures Faithful(items)
  {
    hide Spelling;
    if items != [] {
      AlwaysFaithful(items[1..]);
    }
  }

  /** Two tokens with nothing between them unless it is forced. */
  function Joined(t: Token, u: Token): seq<Item> {
    [Item(t, false, 0), Item(u, false, 0)]
  }

  lemma JoinedBleeds(t: Token, u: Token)
    requires IsToken(t) && IsToken(u) && !WouldPaste(Spelling(t), Spelling(u)) && Bleeds(t, u)
    ensures Printed(Joined(t, u), 1) == Spelling(t) + (Spelling(u) + "\n")
    ensures !ReadsBack(Joined(t, u), 1)
  {
    hide Spelling, WouldPaste, Bleeds, IsToken, LexesTo;
    var items := Joined(t, u);
    assert items[1..] == [items[1]] && [items[1]][1..] == [];
    FewLineFeeds();
    assert Tail(u, [], 1) == "" + Print([], 1) == "\n";
    assert Print([items[1]], 1) == Spelling(u) + Tail(u, [items[1]][1..], 1);
    assert "" + (Spelling(u) + "\n") == Spelling(u) + "\n";
    assert Print(items, 1) == Spelling(t) + (Spelling(u) + "\n");
    assert "" + Print(items, 1) == Print(items, 1);
    NotFaithfulAtHead(items, 1);
  }

  /** No blank is forced between the number 1f and a full stop, so they are printed as 1f. and lex as one number. */
  lemma NumberSwallowsFullStop()
    ensures Printed(Joined(Number("1f"), Punctuator(".")), 1) == "1f.\n"
    ensures !ReadsBack(Joined(Number("1f"), Punctuator(".")), 1)
  {
    assert "1f"[1..] == "f" && "f"[1..] == "";
    assert NumberLength("f") == 1 + NumberLength("f"[1..]);
    JoinedBleeds(Number("1f"), Punctuator("."));
  }

  /** Nor between the identifier L and a string, which lex as one wide string. */
  lemma PrefixSwallowsString(payload: string)
    requires IsPayload(payload)
    ensures !ReadsBack(Joined(Identifier("L"), Literal(NoPrefix, false, payload)), 1)
  {
    var t, u := Identifier("L"), Literal(NoPrefix, false, payload);
    assert Spelling(u)[0] == '\"';
    assert "L"[1..] == "" && WordLength("L") == 1;
    JoinedBleeds(t, u);
  }

  // ---------------------------------------------------------------- a worked example

  function On(token: Token, startOfLine: bool, space: bool, line: nat): Event {
    Word(token, startOfLine, space, Place(0, "a.c", line))
  }

  const X := On(Identifier("x"), true, true, 1)
  const Equals := On(Punctuator("="), false, true, 1)
  const Minus := On(Punctuator("-"), false, false, 1)
  const Y := On(Identifier("y"), true, false, 3)
  const Z := On(Identifier("z"), false, false, 7)

  /** x = - - on line 1 of a file, two line ends, y on line 3, and z that comes from line 7: the two minus signs are kept
      apart, z goes on a line of its own, and the text ends with a line feed. */
  method EmitExample() returns (text: string)
    ensures text == "x =- -\n\ny\nz\n"
  {
    hide Text;
    text := Emit([X, Equals, Minus, Minus, LineEnd, LineEnd, Y, Z], Some(0));
    ExampleText();
  }

  lemma ExampleText()
    ensures Text([X, Equals, Minus, Minus, LineEnd, LineEnd, Y, Z], Some(0)) == "x =- -\n\ny\nz\n"
  {
    hide Items, EndBreaks, Print;
    ExampleItems();
    ExamplePrint();
    FewLineFeeds();
    var s := "x =- -\n\ny\nz\n";
    assert LineFeeds(0) + s == s;
  }

  lemma ItemsFrom(e: Event, events: seq<Event>, all: seq<Event>, last: Last, lineEnds: nat, first: bool)
    requires all == [e] + events
    ensures e.LineEnd? ==> Items(all, last, lineEnds, first) == Items(events, last, lineEnds + 1, first)
                           && EndBreaks(all, lineEnds, first) == EndBreaks(events, lineEnds + 1, first)
    ensures e.Word? ==> Items(all, last, lineEnds, first)
                        == [Item(e.token, e.space, Breaks(lineEnds, !first && (e.startOfLine || Moved(last, lineEnds, e.at))))]
                           + Items(events, Was(e.at.fileId, e.at.line), 0, false)
                        && EndBreaks(all, lineEnds, first) == EndBreaks(events, 0, false)
  {
    assert all[0] == e && all[1..] == events;
  }

  lemma ExampleItems()
    ensures var events := [X, Equals, Minus, Minus, LineEnd, LineEnd, Y, Z];
            Items(events, Was(0, 1), 0, true) == ExampleList() && EndBreaks(events, 0, true) == 1
  {
    hide Items, EndBreaks;
    ItemsFrom(X, [Equals, Minus, Minus, LineEnd, LineEnd, Y, Z], [X, Equals, Minus, Minus, LineEnd, LineEnd, Y, Z], Was(0, 1), 0, true);
    ItemsFrom(Equals, [Minus, Minus, LineEnd, LineEnd, Y, Z], [Equals, Minus, Minus, LineEnd, LineEnd, Y, Z], Was(0, 1), 0, false);
    ItemsFrom(Minus, [Minus, LineEnd, LineEnd, Y, Z], [Minus, Minus, LineEnd, LineEnd, Y, Z], Was(0, 1), 0, false);
    ItemsFrom(Minus, [LineEnd, LineEnd, Y, Z], [Minus, LineEnd, LineEnd, Y, Z], Was(0, 1), 0, false);
    ItemsFrom(LineEnd, [LineEnd, Y, Z], [LineEnd, LineEnd, Y, Z], Was(0, 1), 0, false);
    ItemsFrom(LineEnd, [Y, Z], [LineEnd, Y, Z], Was(0, 1), 1, false);
    ItemsFrom(Y, [Z], [Y, Z], Was(0, 1), 2, false);
    ItemsFrom(Z, [], [Z], Was(0, 3), 0, false);
    NoItems();
  }

  lemma NoItems()
    ensures Items([], Was(0, 7), 0, false) == [] && EndBreaks([], 0, false) == 1
  {
  }

  function ExampleList(): seq<Item> {
    [Item(Identifier("x"), true, 0), Item(Punctuator("="), true, 0), Item(Punctuator("-"), false, 0), Item(Punctuator("-"), false, 0),
     Item(Identifier("y"), false, 2), Item(Identifier("z"), false, 1)]
  }

  lemma ExamplePrint()
    ensures Print(ExampleList(), 1) == "x =- -\n\ny\nz\n"
  {
    hide Print, Lead;
    var l := ExampleList();
    ExampleLeads();
    FewLineFeeds();
    PrintsLast(l, "z\n");
    PrintsFrom(l, 4, "\n", "z\n", "y\nz\n");
    PrintsFrom(l, 3, "\n\n", "y\nz\n", "-\n\ny\nz\n");
    PrintsFrom(l, 2, " ", "-\n\ny\nz\n", "- -\n\ny\nz\n");
    PrintsFrom(l, 1, "", "- -\n\ny\nz\n", "=- -\n\ny\nz\n");
    PrintsFrom(l, 0, " ", "=- -\n\ny\nz\n", "x =- -\n\ny\nz\n");
    assert l[0..] == l;
  }

  lemma ExampleLeads()
    ensures var l := ExampleList();
            && Lead(l[0].token, l[1]) == " " && Lead(l[1].token, l[2]) == "" && Lead(l[2].token, l[3]) == " "
            && Lead(l[3].token, l[4]) == "\n\n" && Lead(l[4].token, l[5]) == "\n"
  {
    FewLineFeeds();
    OneMoreLineFeed(1);
    assert "\n" + "\n" == "\n\n";
  }

  lemma PrintsLast(l: seq<Item>, text: string)
    requires l != [] && text == Spelling(l[|l| - 1].token) + "\n"
    ensures Print(l[|l| - 1..], 1) == text
  {
    hide Spelling;
    FewLineFeeds();
    var last := l[|l| - 1..];
    assert last[0] == l[|l| - 1] && last[1..] == [];
    assert Tail(last[0].token, [], 1) == "" + "\n";
  }

  /** What is printed from one token on, from what is printed from the next one on. */
  lemma PrintsFrom(l: seq<Item>, i: nat, lead: string, more: string, text: string)
    requires i + 1 < |l| && text == Spelling(l[i].token) + (lead + more)
    requires lead == Lead(l[i].token, l[i + 1]) && Print(l[i + 1..], 1) == more
    ensures Print(l[i..], 1) == text
  {
    hide Spelling, Lead;
    assert l[i..][0] == l[i] && l[i..][1..] == l[i + 1..] && l[i + 1..][0] == l[i + 1];
    assert Tail(l[i].token, l[i + 1..], 1) == lead + more;
  }

  // ---------------------------------------------------------------- the lexer makes tokens

  lemma {:induction false} WordOfText(s: string)
    ensures WordLength(s[..WordLength(s)]) == WordLength(s)
  {
    hide IsWordChar;
    if s != "" && IsWordChar(s[0]) {
      WordOfText(s[1..]);
      assert s[..WordLength(s)][1..] == s[1..][..WordLength(s[1..])];
    }
  }

  lemma {:induction false} NumberOfText(s: string)
    ensures NumberLength(s[..NumberLength(s)]) == NumberLength(s)
    decreases |s|
  {
    hide IsWordChar;
    CharsOfNumbers();
    var n := NumberLength(s);
    if IsExponent(At(s, 0)) && IsSign(At(s, 1)) {
      NumberOfText(s[2..]);
      assert s[..n][2..] == s[2..][..n - 2];
    } else if s != "" && (IsWordChar(s[0]) || s[0] == '.') {
      NumberOfText(s[1..]);
      assert s[..n][1..] == s[1..][..n - 1];
    } else if At(s, 0) == '\'' && IsWordChar(At(s, 1)) {
      NumberOfText(s[1..]);
      assert s[..n][1..] == s[1..][..n - 1];
      assert NumberLength(s[1..]) >= 1;
    }
  }

  lemma VisibleMakesTokens(s: string)
    requires s != "" && IsPayload(s)
    ensures NextVisible(s).Lexed? ==> IsToken(NextVisible(s).token) && IsPayload(NextVisible(s).rest)
  {
    hide WordLength, NumberLength, PunctuatorLength, LiteralStart, ReadBody, IsSingle, IsPair, IsTriple, IsWordChar, IsNonDigit;
    WordOfText(s[1..]);
    NumberOfText(s[1..]);
    var p := LiteralStart(s);
    if p.Some? {
      var body := s[|PrefixText(p.value)| + 1..];
      if ReadBody(body, s[|PrefixText(p.value)|]).Some? {
        BodyIsPayload(body, s[|PrefixText(p.value)|]);
      }
    } else if IsDigit(s[0]) || (s[0] == '.' && IsDigit(At(s, 1))) {
      var n := 1 + NumberLength(s[1..]);
      assert s[..n][1..] == s[1..][..n - 1];
      NumberHasDigit(s, n);
    } else if IsNonDigit(s[0]) {
      var n := 1 + WordLength(s[1..]);
      assert s[..n][1..] == s[1..][..n - 1];
      assert WordLength(s[..n]) == n by { WordHead(s[..n]); }
    } else {
      LengthIsOfAPunctuator(s[0], At(s, 1), At(s, 2));
    }
  }

  lemma NumberHasDigit(s: string, n: nat)
    requires s != "" && n == 1 + NumberLength(s[1..])
    requires IsDigit(s[0]) || (s[0] == '.' && IsDigit(At(s, 1)))
    ensures s[..n][0] == s[0] && At(s[..n], 1) == if n > 1 then At(s, 1) else '\0'
    ensures s[0] == '.' ==> n > 1
  {
  }

  lemma WordHead(w: string)
    requires w != "" && IsNonDigit(w[0]) && WordLength(w[1..]) == |w| - 1
    ensures WordLength(w) == |w|
  {
  }

  lemma {:induction false} LineLeavesPayload(s: string)
    requires IsPayload(s)
    ensures IsPayload(SkipLine(s))
    ensures SkipBlock(s).Some? ==> IsPayload(SkipBlock(s).value)
  {
    if s != "" {
      LineLeavesPayload(s[1..]);
    }
  }

  /** Whatever the lexer finds in a text of bytes is a token in the sense of the re-lexing theorem. */
  lemma {:induction false} LexerMakesTokens(s: string)
    requires IsPayload(s)
    ensures Next(s).Lexed? ==> IsToken(Next(s).token) && IsPayload(Next(s).rest)
    decreases |s|
  {
    hide NextVisible, IsToken, SkipLine, SkipBlock;
    if At(s, 0) == '\0' {
    } else if s[0] == '/' && At(s, 1) == '/' {
      LineLeavesPayload(s[2..]);
      LexerMakesTokens(SkipLine(s[2..]));
    } else if s[0] == '/' && At(s, 1) == '*' {
      LineLeavesPayload(s[2..]);
      if SkipBlock(s[2..]).Some? {
        LexerMakesTokens(SkipBlock(s[2..]).value);
      }
    } else if IsSpace(s[0]) {
      LexerMakesTokens(s[1..]);
    } else if s[0] == '\\' && At(s, 1) == '\n' {
      LexerMakesTokens(s[2..]);
    } else {
      VisibleMakesTokens(s);
    }
  }
}
