/** The parser's token manager: an index into the tokens and a queue of split tokens in front of them, seen as one
    stream. */
module TokenStream {

  datatype Token = Eof | Token(id: int)

  /** The split tokens and whether they stand for the token at the index. */
  datatype SplitState = SplitState(tokens: seq<Token>, replacesCurrent: bool)

  /** What a client does to the stream. */
  datatype Operation = AdvanceOne | ReplaceCurrent(replacement: seq<Token>) | MoveTo(index: nat) | SetSplit(state: SplitState)

  /** The head of a stream, or the end-of-file token. */
  function Head(s: seq<Token>): Token {
    if s == [] then Eof else s[0]
  }

  function At(s: seq<Token>, k: nat): Token {
    if k < |s| then s[k] else Eof
  }

  function Rest(s: seq<Token>): seq<Token> {
    if s == [] then [] else s[1..]
  }

  /** A stream after a number of advances. */
  function Advanced(s: seq<Token>, k: nat): seq<Token> {
    if k == 0 then s else Advanced(Rest(s), k - 1)
  }

  /** Looking k tokens ahead is looking at the head after k advances. */
  lemma {:induction false} PeekingIsAdvancing(s: seq<Token>, k: nat)
    ensures At(s, k) == Head(Advanced(s, k))
  {
    if k > 0 {
      PeekingIsAdvancing(Rest(s), k - 1);
    }
  }

  function Dropped(tokens: seq<Token>, n: nat): seq<Token> {
    if n <= |tokens| then tokens[n..] else []
  }

  /** The stream a state stands for. */
  function StreamOf(tokens: seq<Token>, current: nat, split: SplitState): seq<Token> {
    split.tokens + Dropped(tokens, current + if split.replacesCurrent then 1 else 0)
  }

  lemma HeadOfConcat(a: seq<Token>, b: seq<Token>)
    requires a != []
    ensures Rest(a + b) == a[1..] + b
  {
  }

  class TokenMgnt {
    const tokens: seq<Token>
    var current: nat
    var splitTokens: seq<Token>
    var splitReplacesCurrent: bool

    constructor (tokens: seq<Token>)
      ensures this.tokens == tokens && Valid() && Stream() == tokens && current == 0 && splitTokens == []
    {
      this.tokens, current, splitTokens, splitReplacesCurrent := tokens, 0, [], false;
    }

    /** Only a split token can replace the current one. */
    predicate Valid()
      reads this
    {
      splitReplacesCurrent ==> splitTokens != []
    }

    /** The split tokens, then the tokens from the index on, without the one that is replaced. */
    function Stream(): seq<Token>
      reads this
    {
      StreamOf(tokens, current, SplitState(splitTokens, splitReplacesCurrent))
    }

    method CurrentToken() returns (t: Token)
      requires Valid()
      ensures t == Head(Stream())
    {
      if splitTokens != [] {
        return splitTokens[0];
      }
      if current >= |tokens| {
        return Eof;
      }
      return tokens[current];
    }

    method PeekToken(offset: nat) returns (t: Token)
      requires Valid()
      ensures t == At(Stream(), offset)
      ensures t == Head(Advanced(Stream(), offset))
    {
      PeekingIsAdvancing(Stream(), offset);
      if splitTokens != [] {
        var suffixCount := |splitTokens| - 1;
        if offset <= suffixCount {
          return splitTokens[offset];
        }
        var underlying := if splitReplacesCurrent then offset - suffixCount else offset - suffixCount - 1;
        var position := current + underlying;
        if position >= |tokens| {
          return Eof;
        }
        return tokens[position];
      }
      var position := current + offset;
      if position >= |tokens| {
        return Eof;
      }
      return tokens[position];
    }

    /** Drops the head of the stream; at its end it does nothing. The index only moves when no split token is left for the
        token there. */
    method Advance()
      requires Valid()
      modifies `current, `splitTokens, `splitReplacesCurrent
      ensures Valid() && Stream() == Rest(old(Stream()))
      ensures splitTokens == Rest(old(splitTokens))
      ensures current == if old(current) < |tokens|
                           && (old(splitTokens) == [] || (|old(splitTokens)| == 1 && old(splitReplacesCurrent)))
                         then old(current) + 1 else old(current)
    {
      if splitTokens != [] {
        HeadOfConcat(splitTokens, Dropped(tokens, current + if splitReplacesCurrent then 1 else 0));
        splitTokens := splitTokens[1..];
        if splitTokens == [] && splitReplacesCurrent && current < |tokens| {
          current := current + 1;
        }
        if splitTokens == [] {
          splitReplacesCurrent := false;
        }
        return;
      }
      if current < |tokens| {
        current := current + 1;
      }
    }

    /** A nonempty replacement takes the place of the token at the index; an empty one only takes split tokens away. */
    method ReplaceCurrentTokenSequence(replacement: seq<Token>)
      requires Valid()
      modifies `splitTokens, `splitReplacesCurrent
      ensures Valid()
      ensures Stream() == replacement + Dropped(tokens, current + if replacement == [] then 0 else 1)
    {
      splitTokens := replacement;
      splitReplacesCurrent := splitTokens != [];
    }

    method GetSplitTokenState() returns (state: SplitState)
      ensures state == SplitState(splitTokens, splitReplacesCurrent)
    {
      return SplitState(splitTokens, splitReplacesCurrent);
    }

    /** Restoring an index and the split state that was saved with it restores the stream they stood for, whatever
        happened in between. */
    method Restore(index: nat, state: SplitState)
      requires state.replacesCurrent ==> state.tokens != []
      modifies `current, `splitTokens, `splitReplacesCurrent
      ensures Valid() && current == index && Stream() == StreamOf(tokens, index, state)
    {
      SetTokenIdx(index);
      SetSplitTokenState(state);
    }

    method SetTokenIdx(index: nat)
      modifies `current, `splitTokens, `splitReplacesCurrent
      ensures Valid() && current == index && splitTokens == [] && Stream() == Dropped(tokens, index)
    {
      current, splitTokens, splitReplacesCurrent := index, [], false;
    }

    method SetSplitTokenState(state: SplitState)
      modifies `splitTokens, `splitReplacesCurrent
      ensures Valid() && splitTokens == state.tokens
      ensures (state.replacesCurrent ==> state.tokens != []) ==> Stream() == StreamOf(tokens, current, state)
    {
      splitTokens := state.tokens;
      splitReplacesCurrent := state.replacesCurrent && splitTokens != [];
    }

    /** One operation of a client. */
    method Perform(op: Operation)
      requires Valid()
      modifies `current, `splitTokens, `splitReplacesCurrent
      ensures Valid()
      ensures match op
              case AdvanceOne => Stream() == Rest(old(Stream()))
              case ReplaceCurrent(ts) => Stream() == ts + Dropped(tokens, old(current) + if ts == [] then 0 else 1)
              case MoveTo(i) => Stream() == Dropped(tokens, i)
              case SetSplit(s) => splitTokens == s.tokens
    {
      match op {
        case AdvanceOne => Advance();
        case ReplaceCurrent(ts) => ReplaceCurrentTokenSequence(ts);
        case MoveTo(i) => SetTokenIdx(i);
        case SetSplit(s) => SetSplitTokenState(s);
      }
    }

    /** A tentative parse: save the index and the split state, do anything at all, restore both. */
    method Tentative(ops: seq<Operation>)
      requires Valid()
      modifies `current, `splitTokens, `splitReplacesCurrent
      ensures Valid() && Stream() == old(Stream())
    {
      var index := current;
      var state := GetSplitTokenState();
      for i := 0 to |ops|
        invariant Valid()
      {
        Perform(ops[i]);
      }
      Restore(index, state);
    }
  }

  // ---------------------------------------------------------------- a worked example

  /** Of the tokens 1, 2 and 3 the second is split into 7 and 8: after one advance the stream goes on 7, 8, 3. */
  method SplitExample() returns (first: Token, second: Token, third: Token, last: Token)
    ensures first == Token(7) && second == Token(8) && third == last == Token(3)
  {
    var m := new TokenMgnt([Token(1), Token(2), Token(3)]);
    m.Advance();
    assert m.Stream() == [Token(2), Token(3)];
    m.ReplaceCurrentTokenSequence([Token(7), Token(8)]);
    assert m.Stream() == [Token(7), Token(8), Token(3)];
    first := m.CurrentToken();
    second := m.PeekToken(1);
    third := m.PeekToken(2);
    m.Advance();
    assert m.Stream() == [Token(8), Token(3)];
    m.Advance();
    assert m.Stream() == [Token(3)];
    last := m.CurrentToken();
  }
}
