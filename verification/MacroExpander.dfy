/** Rescanning of object-like macros: the token-source stack of the preprocessor
    against the recursive expansion with hide sets (C17 section 6.10.3.4). */
module MacroExpander {
  import opened HideSets

  datatype Flags = Flags(leadingSpace: bool, startOfLine: bool)

  // ---------------------------------------------------------------- the meaning of expansion

  /** A token with the set of macro names it must not be expanded as. Identifier 0 marks a token
      that is not identifier-like. */
  datatype SetToken = SetToken(text: string, ident: Ident, flags: Flags, hidden: set<Ident>)

  type Env = map<Ident, seq<SetToken>>

  /** A token that is handed to the parser as it is. */
  predicate Stops(t: SetToken, env: Env) {
    t.ident in t.hidden || t.ident !in env
  }

  function WithHidden(ts: seq<SetToken>, more: set<Ident>): (r: seq<SetToken>)
    ensures |r| == |ts|
  {
    seq(|ts|, i requires 0 <= i < |ts| => ts[i].(hidden := ts[i].hidden + more))
  }

  function WithFirstFlags(ts: seq<SetToken>, flags: Flags): seq<SetToken> {
    if ts == [] then [] else ts[0 := ts[0].(flags := flags)]
  }

  /** The replacement list of a trigger, painted with the trigger's hide set and its own name;
      the first token takes over the trigger's spacing flags. */
  function Painted(body: seq<SetToken>, trigger: SetToken): seq<SetToken> {
    WithFirstFlags(WithHidden(body, trigger.hidden + {trigger.ident}), trigger.flags)
  }

  /** How many macro names a token may still be expanded as. */
  ghost function Free(t: SetToken, env: Env): nat {
    |env.Keys - t.hidden|
  }

  ghost function MaxFree(ts: seq<SetToken>, env: Env): nat {
    if ts == [] then 0
    else if Free(ts[0], env) > MaxFree(ts[1..], env) then Free(ts[0], env) else MaxFree(ts[1..], env)
  }

  lemma {:induction false} MaxFreeBelow(ts: seq<SetToken>, env: Env, bound: nat)
    requires 0 < bound && forall t :: t in ts ==> Free(t, env) < bound
    ensures MaxFree(ts, env) < bound
  {
    if ts != [] {
      assert ts[0] in ts;
      MaxFreeBelow(ts[1..], env, bound);
    }
  }

  /** Painting uses up at least the trigger's own name. */
  lemma PaintingUsesUpAName(t: SetToken, env: Env)
    requires !Stops(t, env)
    ensures 0 < Free(t, env)
    ensures MaxFree(Painted(env[t.ident], t), env) < Free(t, env)
  {
    assert t.ident in env.Keys - t.hidden;
    var painted := Painted(env[t.ident], t);
    forall p | p in painted ensures Free(p, env) < Free(t, env) {
      assert t.hidden + {t.ident} <= p.hidden;
      SubsetSize(env.Keys - p.hidden, (env.Keys - t.hidden) - {t.ident});
    }
    MaxFreeBelow(painted, env, Free(t, env));
  }

  lemma {:induction false} SubsetSize<T>(a: set<T>, b: set<T>)
    requires a <= b
    ensures |a| <= |b|
    decreases a
  {
    if x :| x in a {
      SubsetSize(a - {x}, b - {x});
    }
  }

  /** The full expansion of one token. */
  ghost function ExpandToken(t: SetToken, env: Env): seq<SetToken>
    decreases Free(t, env), 0
  {
    if Stops(t, env) then [t]
    else PaintingUsesUpAName(t, env); Expand(Painted(env[t.ident], t), env)
  }

  /** The full expansion of a token list. */
  ghost function Expand(ts: seq<SetToken>, env: Env): seq<SetToken>
    decreases MaxFree(ts, env), |ts|
  {
    if ts == [] then [] else ExpandToken(ts[0], env) + Expand(ts[1..], env)
  }

  lemma {:induction false} ExpandConcat(a: seq<SetToken>, b: seq<SetToken>, env: Env)
    ensures Expand(a + b, env) == Expand(a, env) + Expand(b, env)
    decreases |a|
  {
    if a == [] {
      assert a + b == b;
    } else {
      assert (a + b)[1..] == a[1..] + b;
      ExpandConcat(a[1..], b, env);
    }
  }

  lemma {:induction false} OutputStops(ts: seq<SetToken>, env: Env)
    ensures forall t :: t in Expand(ts, env) ==> Stops(t, env)
    decreases MaxFree(ts, env), |ts|
  {
    if ts != [] {
      if !Stops(ts[0], env) {
        PaintingUsesUpAName(ts[0], env);
        OutputStops(Painted(env[ts[0].ident], ts[0]), env);
      }
      OutputStops(ts[1..], env);
    }
  }

  /** Every token that comes out and names a macro has its own name in its hide set. */
  lemma OutputIsPainted(ts: seq<SetToken>, env: Env)
    ensures forall t :: t in Expand(ts, env) && t.ident in env ==> t.ident in t.hidden
  {
    OutputStops(ts, env);
  }

  /** A token that names a macro, and not one it hides, is replaced by the painted replacement list, which is expanded in
      turn; any other token stays. */
  lemma ExpandsByReplacement(t: SetToken, env: Env)
    ensures t.ident in env && t.ident !in t.hidden ==> Expand([t], env) == Expand(Painted(env[t.ident], t), env)
    ensures !(t.ident in env && t.ident !in t.hidden) ==> Expand([t], env) == [t]
  {
    assert [t][1..] == [];
    assert Expand([t], env) == ExpandToken(t, env) + [];
  }

  /** Painting keeps the tokens of the body in their order; each hides what it did, what the trigger did and the trigger's
      own name, and the first takes the trigger's spacing. */
  lemma PaintedByIndex(body: seq<SetToken>, trigger: SetToken)
    ensures |Painted(body, trigger)| == |body|
    ensures forall i :: 0 <= i < |body| ==>
              Painted(body, trigger)[i] == SetToken(body[i].text, body[i].ident, if i == 0 then trigger.flags else body[i].flags,
                                                    body[i].hidden + trigger.hidden + {trigger.ident})
  {
  }

  /** Nothing else expands that way: a function on token lists that maps lists piece by piece, replaces as said and keeps
      the other tokens is Expand. */
  lemma {:induction false} ExpansionIsDetermined(f: seq<SetToken> -> seq<SetToken>, ts: seq<SetToken>, env: Env)
    requires f([]) == [] && forall t, more :: f([t] + more) == f([t]) + f(more)
    requires forall t: SetToken :: if t.ident in env && t.ident !in t.hidden then f([t]) == f(Painted(env[t.ident], t)) else f([t]) == [t]
    ensures f(ts) == Expand(ts, env)
    decreases MaxFree(ts, env), |ts|
  {
    if ts != [] {
      var t := ts[0];
      assert ts == [t] + ts[1..];
      ExpandsByReplacement(t, env);
      ExpandConcat([t], ts[1..], env);
      if t.ident in env && t.ident !in t.hidden {
        PaintingUsesUpAName(t, env);
        ExpansionIsDetermined(f, Painted(env[t.ident], t), env);
      }
      ExpansionIsDetermined(f, ts[1..], env);
    }
  }

  lemma {:induction false} StoppedTokensStay(ts: seq<SetToken>, env: Env)
    requires forall t :: t in ts ==> Stops(t, env)
    ensures Expand(ts, env) == ts
  {
    if ts != [] {
      assert ts[0] in ts;
      StoppedTokensStay(ts[1..], env);
    }
  }

  /** Expanding an expansion again changes nothing. */
  lemma ExpansionIsFinal(ts: seq<SetToken>, env: Env)
    ensures Expand(Expand(ts, env), env) == Expand(ts, env)
  {
    OutputStops(ts, env);
    StoppedTokensStay(Expand(ts, env), env);
  }

  // ---------------------------------------------------------------- how much work the stack does

  /** An upper bound on the loop turns for one token. */
  ghost function TokenWork(t: SetToken, env: Env): nat
    decreases Free(t, env), 0
  {
    if Stops(t, env) then 1
    else PaintingUsesUpAName(t, env); 2 + |env[t.ident]| + Work(Painted(env[t.ident], t), env)
  }

  ghost function Work(ts: seq<SetToken>, env: Env): nat
    decreases MaxFree(ts, env), |ts|
  {
    if ts == [] then 0 else TokenWork(ts[0], env) + Work(ts[1..], env)
  }

  lemma {:induction false} WorkConcat(a: seq<SetToken>, b: seq<SetToken>, env: Env)
    ensures Work(a + b, env) == Work(a, env) + Work(b, env)
    decreases |a|
  {
    if a == [] {
      assert a + b == b;
    } else {
      assert (a + b)[1..] == a[1..] + b;
      WorkConcat(a[1..], b, env);
    }
  }

  // ---------------------------------------------------------------- the machine

  /** A token as the preprocessor stores it, with a hide-set id. */
  datatype Token = Token(text: string, ident: Ident, flags: Flags, hideSet: HideSetId)

  ghost predicate TokenOk(t: Token, sets: seq<seq<Ident>>) {
    IsId(sets, t.hideSet)
  }

  ghost predicate TokensOk(ts: seq<Token>, sets: seq<seq<Ident>>) {
    forall i :: 0 <= i < |ts| ==> TokenOk(ts[i], sets)
  }

  ghost function Abs(t: Token, sets: seq<seq<Ident>>): SetToken
    requires TokenOk(t, sets)
  {
    SetToken(t.text, t.ident, t.flags, Denote(sets, t.hideSet))
  }

  ghost function AbsAll(ts: seq<Token>, sets: seq<seq<Ident>>): (r: seq<SetToken>)
    requires TokensOk(ts, sets)
    ensures |r| == |ts|
  {
    seq(|ts|, i requires 0 <= i < |ts| => Abs(ts[i], sets))
  }

  ghost predicate MacrosOk(macros: map<Ident, seq<Token>>, sets: seq<seq<Ident>>) {
    forall m :: m in macros ==> m != 0 && TokensOk(macros[m], sets)
  }

  ghost function AbsEnv(macros: map<Ident, seq<Token>>, sets: seq<seq<Ident>>): Env
    requires MacrosOk(macros, sets)
  {
    map m | m in macros :: AbsAll(macros[m], sets)
  }

  /** The tokens still to come, innermost source first. */
  ghost function Pending(stack: seq<seq<Token>>): seq<Token> {
    if stack == [] then [] else stack[|stack| - 1] + Pending(stack[..|stack| - 1])
  }

  lemma PendingPush(stack: seq<seq<Token>>, top: seq<Token>)
    ensures Pending(stack + [top]) == top + Pending(stack)
  {
    assert (stack + [top])[..|stack|] == stack;
  }

  lemma AbsConcat(a: seq<Token>, b: seq<Token>, sets: seq<seq<Ident>>)
    requires TokensOk(a, sets) && TokensOk(b, sets)
    ensures TokensOk(a + b, sets)
    ensures AbsAll(a + b, sets) == AbsAll(a, sets) + AbsAll(b, sets)
  {
  }

  lemma HeadAndTail(a: seq<Token>, b: seq<Token>, sets: seq<seq<Ident>>)
    requires TokensOk(a + b, sets)
    ensures TokensOk(a, sets) && TokensOk(b, sets) && AbsAll(a + b, sets) == AbsAll(a, sets) + AbsAll(b, sets)
  {
    assert a == (a + b)[..|a|] && b == (a + b)[|a|..];
  }

  lemma Snoc(ts: seq<Token>, t: Token, sets: seq<seq<Ident>>)
    requires TokensOk(ts, sets) && TokenOk(t, sets)
    ensures TokensOk(ts + [t], sets) && AbsAll(ts + [t], sets) == AbsAll(ts, sets) + [Abs(t, sets)]
  {
  }

  lemma MoveOver<T>(a: seq<T>, x: T, b: seq<T>)
    ensures (a + [x]) + b == a + ([x] + b)
  {
  }

  /** New hide sets leave the meaning of stored tokens and macros alone. */
  lemma GrowthKeepsTokens(ts: seq<Token>, sets: seq<seq<Ident>>, sets': seq<seq<Ident>>)
    requires sets <= sets' && TokensOk(ts, sets)
    ensures TokensOk(ts, sets') && AbsAll(ts, sets') == AbsAll(ts, sets)
  {
    forall i | 0 <= i < |ts| ensures TokenOk(ts[i], sets') && Abs(ts[i], sets') == Abs(ts[i], sets) {
      ExtensionKeepsMeaning(sets, sets', ts[i].hideSet);
    }
  }

  lemma GrowthKeepsMacros(macros: map<Ident, seq<Token>>, sets: seq<seq<Ident>>, sets': seq<seq<Ident>>)
    requires sets <= sets' && MacrosOk(macros, sets)
    ensures MacrosOk(macros, sets') && AbsEnv(macros, sets') == AbsEnv(macros, sets)
  {
    forall m | m in macros ensures TokensOk(macros[m], sets') && AbsAll(macros[m], sets') == AbsAll(macros[m], sets) {
      GrowthKeepsTokens(macros[m], sets, sets');
    }
  }

  lemma PaintStep(body: seq<Token>, i: nat, painted: seq<Token>, t: Token, hidden: set<Ident>,
                  sets0: seq<seq<Ident>>, before: seq<seq<Ident>>, sets: seq<seq<Ident>>)
    requires i < |body| && |painted| == i && before <= sets && sets0 <= before
    requires TokensOk(body, sets0) && TokensOk(painted, before)
    requires AbsAll(painted, before) == WithHidden(AbsAll(body, sets0)[..i], hidden)
    requires t == body[i].(hideSet := t.hideSet) && TokenOk(t, sets)
    requires Denote(sets, t.hideSet) == Denote(sets0, body[i].hideSet) + hidden
    ensures TokensOk(painted + [t], sets)
    ensures AbsAll(painted + [t], sets) == WithHidden(AbsAll(body, sets0)[..i + 1], hidden)
  {
    GrowthKeepsTokens(painted, before, sets);
    AbsConcat(painted, [t], sets);
    assert AbsAll(body, sets0)[..i + 1] == AbsAll(body, sets0)[..i] + [Abs(body[i], sets0)];
    assert WithHidden(AbsAll(body, sets0)[..i + 1], hidden)
        == WithHidden(AbsAll(body, sets0)[..i], hidden) + [Abs(body[i], sets0).(hidden := Denote(sets0, body[i].hideSet) + hidden)];
  }

  lemma FirstFlags(ts: seq<Token>, flags: Flags, sets: seq<seq<Ident>>)
    requires TokensOk(ts, sets)
    ensures ts != [] ==> TokensOk(ts[0 := ts[0].(flags := flags)], sets)
                         && AbsAll(ts[0 := ts[0].(flags := flags)], sets) == WithFirstFlags(AbsAll(ts, sets), flags)
  {
  }

  datatype Next = Eof | Tok(tok: Token)

  /** Unite every token's hide set with a given one. */
  method UniteAll(hides: HideSetTable, body: seq<Token>, newHideSet: HideSetId) returns (painted: seq<Token>)
    requires hides.Valid() && TokensOk(body, hides.sets) && IsId(hides.sets, newHideSet)
    modifies hides
    ensures hides.Valid() && old(hides.sets) <= hides.sets && |hides.sets| <= old(|hides.sets|) + |body|
    ensures TokensOk(painted, hides.sets)
    ensures AbsAll(painted, hides.sets) == old(WithHidden(AbsAll(body, hides.sets), Denote(hides.sets, newHideSet)))
  {
    ghost var sets0, hidden := hides.sets, Denote(hides.sets, newHideSet);
    painted := [];
    for i := 0 to |body|
      invariant hides.Valid() && sets0 <= hides.sets && |hides.sets| <= |sets0| + i
      invariant IsId(hides.sets, newHideSet) && Denote(hides.sets, newHideSet) == hidden
      invariant TokensOk(body, hides.sets) && AbsAll(body, hides.sets) == AbsAll(body, sets0)
      invariant |painted| == i && TokensOk(painted, hides.sets)
      invariant AbsAll(painted, hides.sets) == WithHidden(AbsAll(body, sets0)[..i], hidden)
    {
      ghost var before := hides.sets;
      ApplyIsExact(before, Union(body[i].hideSet, newHideSet));
      var united := hides.HideSetUnion(body[i].hideSet, newHideSet);
      PaintStep(body, i, painted, body[i].(hideSet := united), hidden, sets0, before, hides.sets);
      GrowthKeepsTokens(body, before, hides.sets);
      ExtensionKeepsMeaning(before, hides.sets, newHideSet);
      painted := painted + [body[i].(hideSet := united)];
    }
    assert AbsAll(body, sets0)[..|body|] == AbsAll(body, sets0);
  }

  class Expander {
    var hides: HideSetTable
    var macros: map<Ident, seq<Token>>
    var maybeMacro: set<Ident>
    var stack: seq<seq<Token>>

    constructor (table: map<Ident, seq<Token>>, tokens: seq<Token>)
      requires MacrosOk(table, []) && TokensOk(tokens, [])
      ensures Valid() && fresh(hides)
      ensures macros == table && stack == [tokens]
      ensures Input() == AbsAll(tokens, []) && Macros() == AbsEnv(table, [])
    {
      hides := new HideSetTable();
      macros, maybeMacro := table, table.Keys;
      stack := [tokens];
      new;
      PendingPush([], tokens);
      assert Pending([tokens]) == tokens;
    }

    ghost predicate Valid()
      reads this, hides
    {
      && hides.Valid()
      && MacrosOk(macros, hides.sets)
      && macros.Keys <= maybeMacro
      && TokensOk(Pending(stack), hides.sets)
    }

    ghost function Input(): seq<SetToken>
      requires Valid()
      reads this, hides
    {
      AbsAll(Pending(stack), hides.sets)
    }

    ghost function Macros(): Env
      requires Valid()
      reads this, hides
    {
      AbsEnv(macros, hides.sets)
    }

    /** The tokens of an expansion: hide sets united with the trigger's, first token's flags from the trigger. */
    method PaintBody(trigger: Token) returns (painted: seq<Token>)
      requires Valid() && TokenOk(trigger, hides.sets) && trigger.ident in macros
      modifies hides
      ensures Valid() && old(hides.sets) <= hides.sets
      ensures |hides.sets| <= old(|hides.sets|) + |macros[trigger.ident]| + 1
      ensures TokensOk(painted, hides.sets) && TokenOk(trigger, hides.sets)
      ensures AbsAll(painted, hides.sets) == Painted(Macros()[trigger.ident], Abs(trigger, hides.sets))
    {
      ghost var sets0 := hides.sets;
      ApplyIsExact(sets0, Insert(trigger.hideSet, trigger.ident));
      var newHideSet := hides.HideSetInsert(trigger.hideSet, trigger.ident);
      GrowthKeepsMacros(macros, sets0, hides.sets);
      painted := UniteAll(hides, macros[trigger.ident], newHideSet);
      FirstFlags(painted, trigger.flags, hides.sets);
      if painted != [] {
        painted := painted[0 := painted[0].(flags := trigger.flags)];
      }
      GrowthKeepsMacros(macros, sets0, hides.sets);
      GrowthKeepsTokens(Pending(stack), sets0, hides.sets);
      ExtensionKeepsMeaning(sets0, hides.sets, trigger.hideSet);
    }

    method ExpandObjectMacro(trigger: Token)
      requires Valid() && TokenOk(trigger, hides.sets) && trigger.ident in macros
      modifies `stack, hides
      ensures Valid() && Macros() == old(Macros()) && old(hides.sets) <= hides.sets
      ensures |stack| == old(|stack|) + 1
      ensures |hides.sets| <= old(|hides.sets|) + |macros[trigger.ident]| + 1
      ensures Input() == Painted(old(Macros())[trigger.ident], old(Abs(trigger, hides.sets))) + old(Input())
    {
      ghost var sets0 := hides.sets;
      var painted := PaintBody(trigger);
      ExtensionKeepsMeaning(sets0, hides.sets, trigger.hideSet);
      GrowthKeepsMacros(macros, sets0, hides.sets);
      GrowthKeepsTokens(Pending(stack), sets0, hides.sets);
      PendingPush(stack, painted);
      AbsConcat(painted, Pending(stack), hides.sets);
      stack := stack + [painted];
    }

    method PeelOffExhausted()
      requires Valid() && stack != [] && stack[|stack| - 1] == []
      modifies `stack
      ensures Valid() && Macros() == old(Macros()) && Input() == old(Input())
      ensures |stack| == old(|stack|) - 1
    {
      assert stack == stack[..|stack| - 1] + [[]];
      PendingPush(stack[..|stack| - 1], []);
      assert Pending(stack) == Pending(stack[..|stack| - 1]);
      stack := stack[..|stack| - 1];
    }

    /** The next raw token of the current source. */
    method ReadToken() returns (tok: Token)
      requires Valid() && stack != [] && stack[|stack| - 1] != []
      modifies `stack
      ensures Valid() && Macros() == old(Macros()) && TokenOk(tok, hides.sets)
      ensures |stack| == old(|stack|)
      ensures old(Input()) == [Abs(tok, hides.sets)] + Input()
    {
      var top := stack[|stack| - 1];
      tok := top[0];
      ghost var below := stack[..|stack| - 1];
      assert stack == below + [top];
      PendingPush(below, top);
      PendingPush(below, top[1..]);
      assert Pending(stack) == [tok] + (top[1..] + Pending(below));
      HeadAndTail([tok], top[1..] + Pending(below), hides.sets);
      assert TokenOk([tok][0], hides.sets);
      assert AbsAll([tok], hides.sets) == [Abs(tok, hides.sets)];
      stack := stack[..|stack| - 1] + [top[1..]];
    }

    /** One call hands out the head of the expansion of what is pending and leaves the rest pending. */
    method NextToken() returns (next: Next)
      requires Valid()
      modifies `stack, hides
      ensures Valid() && Macros() == old(Macros()) && old(hides.sets) <= hides.sets
      ensures next.Eof? ==> stack == [] && Expand(old(Input()), Macros()) == []
      ensures next.Tok? ==> TokenOk(next.tok, hides.sets)
                            && Expand(old(Input()), Macros()) == [Abs(next.tok, hides.sets)] + Expand(Input(), Macros())
                            && Work(Input(), Macros()) < Work(old(Input()), Macros())
    {
      ghost var env := Macros();
      ghost var start := Input();
      while true
        invariant Valid() && Macros() == env && old(hides.sets) <= hides.sets
        invariant Expand(Input(), env) == Expand(start, env)
        invariant Work(Input(), env) <= Work(start, env)
        decreases Work(Input(), env) + |stack|
      {
        if stack == [] {
          return Eof;
        }
        if stack[|stack| - 1] == [] {
          PeelOffExhausted();
          continue;
        }
        ghost var input := Input();
        var tok := ReadToken();
        ghost var t := Abs(tok, hides.sets);
        assert input[0] == t && input[1..] == Input();
        if tok.ident == 0 {
          return Tok(tok);
        }
        if tok.hideSet != 0 {
          var hidden := hides.HideSetContains(tok.hideSet, tok.ident);
          if hidden {
            return Tok(tok);
          }
        }
        if tok.ident !in maybeMacro {
          return Tok(tok);
        }
        if tok.ident !in macros {
          return Tok(tok);
        }
        ghost var rest := Input();
        assert !Stops(t, env) && |env[t.ident]| == |macros[tok.ident]|;
        ExpandObjectMacro(tok);
        ExpandConcat(Painted(env[t.ident], t), rest, env);
        WorkConcat(Painted(env[t.ident], t), rest, env);
      }
    }

    /** One turn of the token loop: the next token joins what was emitted before. */
    method EmitNext(out: seq<Token>) returns (out': seq<Token>, done: bool)
      requires Valid() && TokensOk(out, hides.sets)
      modifies `stack, hides
      ensures Valid() && Macros() == old(Macros()) && TokensOk(out', hides.sets)
      ensures AbsAll(out', hides.sets) + Expand(Input(), Macros())
           == old(AbsAll(out, hides.sets) + Expand(Input(), Macros()))
      ensures done ==> stack == [] && Expand(Input(), Macros()) == []
      ensures !done ==> Work(Input(), Macros()) < old(Work(Input(), Macros()))
    {
      ghost var before, emitted := hides.sets, AbsAll(out, hides.sets);
      ghost var pending := Expand(Input(), Macros());
      var next := NextToken();
      GrowthKeepsTokens(out, before, hides.sets);
      ghost var rest := Expand(Input(), Macros());
      if next.Eof? {
        out', done := out, true;
        assert rest == [] && pending == [];
      } else {
        out', done := out + [next.tok], false;
        Snoc(out, next.tok, hides.sets);
        MoveOver(emitted, Abs(next.tok, hides.sets), rest);
      }
    }

    /** The whole run: the emitted tokens are the recursive expansion of the input. */
    method ExpandAll() returns (out: seq<Token>)
      requires Valid()
      modifies `stack, hides
      ensures Valid() && stack == [] && Macros() == old(Macros())
      ensures TokensOk(out, hides.sets)
      ensures AbsAll(out, hides.sets) == old(Expand(Input(), Macros()))
    {
      out := [];
      var done := false;
      assert AbsAll(out, hides.sets) + Expand(Input(), Macros()) == Expand(Input(), Macros());
      while !done
        invariant Valid() && Macros() == old(Macros()) && TokensOk(out, hides.sets)
        invariant AbsAll(out, hides.sets) + Expand(Input(), Macros()) == old(Expand(Input(), Macros()))
        invariant done ==> stack == [] && Expand(Input(), Macros()) == []
        decreases !done, Work(Input(), Macros())
      {
        out, done := EmitNext(out);
      }
    }
  }

  // ---------------------------------------------------------------- a worked example

  /** An ordinary token and one that may name a macro, with nothing hidden. */
  function Word(text: string, ident: Ident): Token {
    Token(text, ident, Flags(true, false), 0)
  }

  /** #define A B, #define B 1, #define C D and #define D C. */
  function ExampleMacros(): map<Ident, seq<Token>> {
    map[1 := [Word("B", 2)], 2 := [Word("1", 0)], 3 := [Word("D", 4)], 4 := [Word("C", 3)]]
  }

  lemma NothingHidden()
    ensures Denote([], 0) == {}
  {
  }

  lemma PaintedWord(text: string, ident: Ident, trigger: SetToken, body: seq<SetToken>)
    requires body == AbsAll([Word(text, ident)], [])
    ensures Painted(body, trigger) == [SetToken(text, ident, trigger.flags, trigger.hidden + {trigger.ident})]
  {
    PaintedByIndex(body, trigger);
    NothingHidden();
    assert body[0].hidden + trigger.hidden + {trigger.ident} == trigger.hidden + {trigger.ident};
    assert Painted(body, trigger) == [Painted(body, trigger)[0]];
  }

  lemma ExampleExpansion(env: Env)
    requires env == AbsEnv(ExampleMacros(), [])
    ensures var flags := Flags(false, true);
            && Expand([SetToken("A", 1, flags, {})], env) == [SetToken("1", 0, flags, {1, 2})]
            && Expand([SetToken("C", 3, flags, {})], env) == [SetToken("C", 3, flags, {3, 4})]
  {
    var flags := Flags(false, true);
    var a, b, one := SetToken("A", 1, flags, {}), SetToken("B", 2, flags, {1}), SetToken("1", 0, flags, {1, 2});
    var c, d, again := SetToken("C", 3, flags, {}), SetToken("D", 4, flags, {3}), SetToken("C", 3, flags, {3, 4});
    hide Expand;
    assert {} + {1} == {1} && {1} + {2} == {1, 2} && {} + {3} == {3} && {3} + {4} == {3, 4};
    PaintedWord("B", 2, a, env[1]);
    PaintedWord("1", 0, b, env[2]);
    PaintedWord("D", 4, c, env[3]);
    PaintedWord("C", 3, d, env[4]);
    ExpandsByReplacement(a, env);
    ExpandsByReplacement(b, env);
    ExpandsByReplacement(one, env);
    ExpandsByReplacement(c, env);
    ExpandsByReplacement(d, env);
    ExpandsByReplacement(again, env);
  }

  /** A C at the start of a line comes out as 1 C. */
  method ExpandExample() returns (out: seq<Token>)
    ensures |out| == 2 && out[0].text == "1" && out[1].text == "C"
    ensures out[0].flags == out[1].flags == Flags(false, true)
  {
    hide Expand, Work;
    var flags := Flags(false, true);
    var a, c := Token("A", 1, flags, 0), Token("C", 3, flags, 0);
    var expander := new Expander(ExampleMacros(), [a, c]);
    ghost var env := expander.Macros();
    ghost var input := expander.Input();
    NothingHidden();
    assert input == [SetToken("A", 1, flags, {})] + [SetToken("C", 3, flags, {})];
    ExpandConcat([SetToken("A", 1, flags, {})], [SetToken("C", 3, flags, {})], env);
    ExampleExpansion(env);
    out := expander.ExpandAll();
    ghost var shown := AbsAll(out, expander.hides.sets);
    assert shown[0].text == out[0].text && shown[1].text == out[1].text;
    assert shown[0].flags == out[0].flags && shown[1].flags == out[1].flags;
  }
}
