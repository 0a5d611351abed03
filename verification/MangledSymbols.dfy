/** Symbols written out: what the mangler makes of operators, types and back-references, letter by letter (Itanium C++
    ABI, sections 5.1.3, 5.1.5 and 5.1.10). */
module MangledSymbols {
  import opened Basics
  import opened Numerals
  import opened Mangler

  // ---------------------------------------------------------------- operators

  /** Two classes. */
  const A := Plain(Tag("A"))
  const B := Plain(Tag("B"))

  lemma TagText(t: TypeRef, table: seq<TypeRef>)
    requires (t == A || t == B) && t !in table
    ensures Encode(t, table) == Encoded("1" + t.ty.name, table + [t])
  {
    EncodeCases(t, table);
    assert Digits(1, 10) == "1";
    assert ("1" + t.ty.name) + "" == "1" + t.ty.name;
  }

  lemma ClassParams()
    ensures BareFunctionType([A], false) == "1A" && BareFunctionType([A, B], false) == "1A1B"
  {
    hide Encode;
    TagText(A, []);
    TagText(B, [A]);
    var one, two := [A], [A, B];
    assert one[1..] == [] && two[1..] == [B] && [B][1..] == [] && Plain(A.ty) == A && Plain(B.ty) == B;
    assert [] + [A] == [A];
    assert EncodeList([], [A]).out == "" && EncodeList([], [A, B]).out == "" && [A] + [B] == [A, B];
    assert EncodeList([B], [A]).out == "1B" + "";
    assert EncodeList(two, []).out == "1A" + ("1B" + "") && EncodeList(one, []).out == "1A" + "";
  }

  /** The symbols of an operator on A, and on A and B. */
  predicate HasSymbols(s: string, one: string, two: string) {
    FunctionSymbol(Operator(s), [A], false) == one && FunctionSymbol(Operator(s), [A, B], false) == two
  }

  lemma SymbolsFromCodes(s: string, one: string, two: string)
    requires one != "" && two != "" && OperatorCode(s, true) == one && OperatorCode(s, false) == two
    ensures HasSymbols(s, "_Z" + one + "1A", "_Z" + two + "1A1B")
  {
    hide OperatorCode, BareFunctionType;
    ClassParams();
  }

  /** With one class and with two: +, -, * and & have a code for each. */
  lemma ArityOperators()
    ensures HasSymbols("+", "_Zps1A", "_Zpl1A1B")
    ensures HasSymbols("-", "_Zng1A", "_Zmi1A1B")
    ensures HasSymbols("*", "_Zde1A", "_Zml1A1B")
    ensures HasSymbols("&", "_Zad1A", "_Zan1A1B")
  {
    hide HasSymbols;
    SymbolsFromCodes("+", "ps", "pl");
    assert "_Z" + "ps" + "1A" == "_Zps1A" && "_Z" + "pl" + "1A1B" == "_Zpl1A1B";
    SymbolsFromCodes("-", "ng", "mi");
    assert "_Z" + "ng" + "1A" == "_Zng1A" && "_Z" + "mi" + "1A1B" == "_Zmi1A1B";
    SymbolsFromCodes("*", "de", "ml");
    assert "_Z" + "de" + "1A" == "_Zde1A" && "_Z" + "ml" + "1A1B" == "_Zml1A1B";
    SymbolsFromCodes("&", "ad", "an");
    assert "_Z" + "ad" + "1A" == "_Zad1A" && "_Z" + "an" + "1A1B" == "_Zan1A1B";
  }

  lemma MemoryOperators()
    ensures HasCode("new", "nw")
    ensures HasCode("new[]", "na")
    ensures HasCode("delete", "dl")
    ensures HasCode("delete[]", "da")
    ensures HasCode("co_await", "aw")
  {
    hide HasCode;
    OneCode("new", "nw");
    OneCode("new[]", "na");
    OneCode("delete", "dl");
    OneCode("delete[]", "da");
    OneCode("co_await", "aw");
  }

  lemma AccessOperators()
    ensures HasCode("()", "cl")
    ensures HasCode("[]", "ix")
    ensures HasCode("->*", "pm")
    ensures HasCode("->", "pt")
    ensures HasCode(",", "cm")
  {
    hide HasCode;
    OneCode("()", "cl");
    OneCode("[]", "ix");
    OneCode("->*", "pm");
    OneCode("->", "pt");
    OneCode(",", "cm");
  }

  lemma StepOperators()
    ensures HasCode("++", "pp")
    ensures HasCode("--", "mm")
    ensures HasCode("/", "dv")
    ensures HasCode("%", "rm")
    ensures HasCode("^", "eo")
  {
    hide HasCode;
    OneCode("++", "pp");
    OneCode("--", "mm");
    OneCode("/", "dv");
    OneCode("%", "rm");
    OneCode("^", "eo");
  }

  lemma BitOperators()
    ensures HasCode("|", "or")
    ensures HasCode("~", "co")
    ensures HasCode("!", "nt")
  {
    hide HasCode;
    OneCode("|", "or");
    OneCode("~", "co");
    OneCode("!", "nt");
  }

  lemma ShiftOperators()
    ensures HasCode("<<", "ls")
    ensures HasCode(">>", "rs")
    ensures HasCode("&&", "aa")
    ensures HasCode("||", "oo")
  {
    hide HasCode;
    OneCode("<<", "ls");
    OneCode(">>", "rs");
    OneCode("&&", "aa");
    OneCode("||", "oo");
  }

  lemma AssignOperators()
    ensures HasCode("=", "aS")
    ensures HasCode("+=", "pL")
  {
    hide HasCode;
    OneCode("=", "aS");
    OneCode("+=", "pL");
  }

  lemma SubtractOperators()
    ensures HasCode("-=", "mI")
    ensures HasCode("*=", "mL")
  {
    hide HasCode;
    OneCode("-=", "mI");
    OneCode("*=", "mL");
  }

  lemma DivideOperators()
    ensures HasCode("/=", "dV")
    ensures HasCode("%=", "rM")
  {
    hide HasCode;
    OneCode("/=", "dV");
    OneCode("%=", "rM");
  }

  lemma MaskOperators()
    ensures HasCode("^=", "eO")
    ensures HasCode("&=", "aN")
  {
    hide HasCode;
    OneCode("^=", "eO");
    OneCode("&=", "aN");
  }

  lemma MoveOperators()
    ensures HasCode("|=", "oR")
    ensures HasCode("<<=", "lS")
  {
    hide HasCode;
    OneCode("|=", "oR");
    OneCode("<<=", "lS");
  }

  lemma RightMoveOperator()
    ensures HasCode(">>=", "rS")
  {
    hide HasCode;
    OneCode(">>=", "rS");
  }

  lemma LessOperators()
    ensures HasCode("<", "lt")
    ensures HasCode(">", "gt")
  {
    hide HasCode;
    OneCode("<", "lt");
    OneCode(">", "gt");
  }

  lemma EqualOperators()
    ensures HasCode("==", "eq")
    ensures HasCode("!=", "ne")
  {
    hide HasCode;
    OneCode("==", "eq");
    OneCode("!=", "ne");
  }

  lemma AtMostOperators()
    ensures HasCode("<=", "le")
    ensures HasCode(">=", "ge")
  {
    hide HasCode;
    OneCode("<=", "le");
    OneCode(">=", "ge");
  }

  lemma SpaceshipOperator()
    ensures HasCode("<=>", "ss")
  {
    hide HasCode;
    OneCode("<=>", "ss");
  }

  /** One code, whatever the number of operands. */
  predicate HasCode(s: string, c: string) {
    HasSymbols(s, "_Z" + c + "1A", "_Z" + c + "1A1B")
  }

  lemma OneCode(s: string, c: string)
    requires c != "" && OperatorCode(s, true) == c && OperatorCode(s, false) == c
    ensures HasCode(s, c)
  {
    hide OperatorCode, HasSymbols;
    SymbolsFromCodes(s, c, c);
  }

  // ---------------------------------------------------------------- types

  /** A type not seen before is its letters, then its parts, and is entered behind them. */
  lemma NewType(ty: Type, table: seq<TypeRef>, head: string, parts: string, between: seq<TypeRef>)
    requires Plain(ty) !in table && !ty.Builtin? && HeadCode(HeadOf(ty)) == head && EncodeParts(ty, table) == Encoded(parts, between)
    ensures Encode(Plain(ty), table) == Encoded(head + parts, between + [Plain(ty)])
  {
    hide EncodeParts, Encode, HeadCode;
    EncodeCases(Plain(ty), table);
  }

  lemma BuiltinText(k: BuiltinKind, table: seq<TypeRef>)
    ensures Encode(Plain(Builtin(k)), table) == Encoded(BuiltinCode(k), table)
  {
    EncodeCases(Plain(Builtin(k)), table);
  }

  /** The symbol of a function f of one parameter. */
  function SymbolOf(ty: Type): string {
    FunctionSymbol(Identifier("f"), [Plain(ty)], false)
  }

  lemma OneParameterSymbol(ty: Type, text: string, table: seq<TypeRef>, symbol: string)
    requires Encode(Plain(ty), []) == Encoded(text, table) && symbol == "_Z1f" + text
    ensures SymbolOf(ty) == symbol
  {
    hide Encode;
    var ps := [Plain(ty)];
    assert ps[1..] == [] && EncodeList([], table).out == "";
    assert EncodeList(ps, []).out == text + "" == text;
    NameOfF();
  }

  lemma NameOfF()
    ensures forall unary :: TerminalCode(Identifier("f"), unary) == "1f"
  {
    assert Digits(1, 10) == "1";
  }

  /** A parameter of builtin type is its letters. */
  predicate BuiltinIs(k: BuiltinKind, text: string) {
    SymbolOf(Builtin(k)) == "_Z1f" + text
  }

  lemma OneBuiltin(k: BuiltinKind, text: string)
    requires BuiltinCode(k) == text
    ensures BuiltinIs(k, text)
  {
    hide Encode, SymbolOf, BuiltinCode;
    BuiltinText(k, []);
    OneParameterSymbol(Builtin(k), text, [], "_Z1f" + text);
  }

  lemma CharSymbols()
    ensures BuiltinIs(Bool, "b")
    ensures BuiltinIs(Char, "c")
    ensures BuiltinIs(SChar, "a")
    ensures BuiltinIs(UChar, "h")
    ensures BuiltinIs(Short, "s")
  {
    hide BuiltinIs;
    OneBuiltin(Bool, "b");
    OneBuiltin(Char, "c");
    OneBuiltin(SChar, "a");
    OneBuiltin(UChar, "h");
    OneBuiltin(Short, "s");
  }

  lemma IntegerSymbols()
    ensures BuiltinIs(UShort, "t")
    ensures BuiltinIs(Int, "i")
    ensures BuiltinIs(UInt, "j")
    ensures BuiltinIs(Long, "l")
    ensures BuiltinIs(ULong, "m")
    ensures BuiltinIs(LongLong, "x")
  {
    hide BuiltinIs;
    OneBuiltin(UShort, "t");
    OneBuiltin(Int, "i");
    OneBuiltin(UInt, "j");
    OneBuiltin(Long, "l");
    OneBuiltin(ULong, "m");
    OneBuiltin(LongLong, "x");
  }

  lemma LongSymbols()
    ensures BuiltinIs(ULongLong, "y")
    ensures BuiltinIs(Int128, "n")
    ensures BuiltinIs(UInt128, "o")
    ensures BuiltinIs(USize, "m")
    ensures BuiltinIs(WChar, "w")
  {
    hide BuiltinIs;
    OneBuiltin(ULongLong, "y");
    OneBuiltin(Int128, "n");
    OneBuiltin(UInt128, "o");
    OneBuiltin(USize, "m");
    OneBuiltin(WChar, "w");
  }

  lemma WideSymbols()
    ensures BuiltinIs(Char8, "Du")
    ensures BuiltinIs(Char16, "Ds")
    ensures BuiltinIs(Char32, "Di")
    ensures BuiltinIs(Float16, "DF16_")
  {
    hide BuiltinIs;
    OneBuiltin(Char8, "Du");
    OneBuiltin(Char16, "Ds");
    OneBuiltin(Char32, "Di");
    OneBuiltin(Float16, "DF16_");
  }

  lemma FloatingSymbols()
    ensures BuiltinIs(Float, "f")
    ensures BuiltinIs(Double, "d")
    ensures BuiltinIs(LongDouble, "e")
    ensures BuiltinIs(NullPtr, "Dn")
    ensures BuiltinIs(Void, "v")
  {
    hide BuiltinIs;
    OneBuiltin(Float, "f");
    OneBuiltin(Double, "d");
    OneBuiltin(LongDouble, "e");
    OneBuiltin(NullPtr, "Dn");
    OneBuiltin(Void, "v");
  }

  /** One level on top of int: pointer, references, complex, block pointer, vector, and arrays of known and unknown bound. */
  lemma DerivedSymbols()
    ensures SymbolOf(Pointer(Plain(Builtin(Int)))) == "_Z1f" + "Pi"
    ensures SymbolOf(LValueReference(Plain(Builtin(Int)))) == "_Z1f" + "Ri"
    ensures SymbolOf(RValueReference(Plain(Builtin(Int)))) == "_Z1f" + "Oi"
    ensures SymbolOf(Complex(Plain(Builtin(Int)))) == "_Z1f" + "Ci"
    ensures SymbolOf(BlockPointer(Plain(Builtin(Int)))) == "_Z1f" + "U13block_pointeri"
  {
    hide Encode, SymbolOf;
    var int_ := Plain(Builtin(Int));
    BuiltinText(Int, []);
    Level(Pointer(int_), "P", "i", "Pi");
    Level(LValueReference(int_), "R", "i", "Ri");
    Level(RValueReference(int_), "O", "i", "Oi");
    Level(Complex(int_), "C", "i", "Ci");
    Level(BlockPointer(int_), "U13block_pointer", "i", "U13block_pointeri");
  }

  lemma CountedSymbols()
    ensures SymbolOf(Vector(4, Plain(Builtin(Int)))) == "_Z1f" + "Dv4_i"
    ensures SymbolOf(Array(Size(3), Plain(Builtin(Int)))) == "_Z1f" + "A3_i"
    ensures SymbolOf(Array(NoExtent, Plain(Builtin(Int)))) == "_Z1f" + "A_i"
    ensures SymbolOf(Array(ExtentParam(0), Plain(Builtin(Int)))) == "_Z1f" + "AT__i"
  {
    hide Encode, SymbolOf;
    var int_ := Plain(Builtin(Int));
    BuiltinText(Int, []);
    assert Digits(4, 10) == "4" && Digits(3, 10) == "3";
    Level(Vector(4, int_), "Dv4_", "i", "Dv4_i");
    Level(Array(Size(3), int_), "A3_", "i", "A3_i");
    Level(Array(NoExtent, int_), "A_", "i", "A_i");
    Level(Array(ExtentParam(0), int_), "AT__", "i", "AT__i");
  }

  lemma NumberedSymbols()
    ensures SymbolOf(BitInt(false, 7)) == "_Z1f" + "DB7_" && SymbolOf(BitInt(true, 7)) == "_Z1f" + "DU7_"
    ensures SymbolOf(TypeParam(0)) == "_Z1f" + "T_" && SymbolOf(TypeParam(1)) == "_Z1f" + "T0_"
  {
    hide Encode, SymbolOf;
    assert Digits(7, 10) == "7" && Digits(0, 10) == "0";
    Level(BitInt(false, 7), "DB7_", "", "DB7_");
    Level(BitInt(true, 7), "DU7_", "", "DU7_");
    Level(TypeParam(0), "T_", "", "T_");
    Level(TypeParam(1), "T0_", "", "T0_");
  }

  lemma Level(ty: Type, head: string, parts: string, text: string)
    requires !ty.Builtin? && HeadCode(HeadOf(ty)) == head && EncodeParts(ty, []) == Encoded(parts, []) && text == head + parts
    ensures SymbolOf(ty) == "_Z1f" + text
  {
    hide Encode, SymbolOf, HeadCode, EncodeParts;
    NewType(ty, [], head, parts, []);
    OneParameterSymbol(ty, text, [] + [Plain(ty)], "_Z1f" + text);
  }

  /** Qualifiers stand in the order restrict, volatile, const, in front of what they qualify; those of the parameter itself
      are not written. */
  lemma QualifierSymbols()
    ensures var all := Quals(true, true, true);
            SymbolOf(Pointer(TypeRef(Pointer(Plain(Builtin(Char))), all))) == "_Z1fPrVKPc"
    ensures FunctionSymbol(Identifier("f"), [TypeRef(Builtin(Int), Quals(false, false, true))], false) == "_Z1fi"
  {
    hide Encode, SymbolOf;
    var p := Pointer(Plain(Builtin(Char)));
    var q := TypeRef(p, Quals(true, true, true));
    BuiltinText(Char, []);
    NewType(p, [], "P", "c", []);
    EncodeCases(q, []);
    assert QualCode(q.quals) + ("P" + "c") == "rVKPc";
    NewType(Pointer(q), [], "P", "rVKPc", ([] + [Plain(p)]) + [q]);
    OneParameterSymbol(Pointer(q), "P" + "rVKPc", (([] + [Plain(p)]) + [q]) + [Plain(Pointer(q))], "_Z1fPrVKPc");
    BuiltinText(Int, []);
    var c := TypeRef(Builtin(Int), Quals(false, false, true));
    assert [c][1..] == [] && EncodeList([], []).out == "" && EncodeList([c], []).out == "i" + "";
    NameOfF();
  }

  /** Functions: the return type, the parameters, v for none, z for an ellipsis, E at the end. */
  lemma FunctionPointerSymbols()
    ensures SymbolOf(Pointer(Plain(Function(Plain(Builtin(Void)), [], false, true)))) == "_Z1f" + "PDoFvvE"
    ensures SymbolOf(Pointer(Plain(Function(Plain(Builtin(Int)), [Plain(Builtin(Char))], true, false)))) == "_Z1f" + "PFiczE"
  {
    hide Encode, SymbolOf;
    PointedFunction([], false, true, Builtin(Void), "v", "v", "DoFvvE", "PDoFvvE");
    BuiltinText(Char, []);
    assert [Plain(Builtin(Char))][1..] == [] && EncodeList([], []) == Encoded("", []);
    assert EncodeParams([Plain(Builtin(Char))], []) == Encoded("c" + "", []);
    PointedFunction([Plain(Builtin(Char))], true, false, Builtin(Int), "i", "c", "FiczE", "PFiczE");
  }

  /** A member pointer, its class first. */
  lemma MemberPointerSymbol()
    ensures SymbolOf(MemberPointer(A, Plain(Builtin(Int)))) == "_Z1fM1Ai"
  {
    hide Encode, SymbolOf;
    TagText(A, []);
    BuiltinText(Int, [] + [A]);
    NewType(MemberPointer(A, Plain(Builtin(Int))), [], "M", "1A" + "i", [] + [A]);
    OneParameterSymbol(MemberPointer(A, Plain(Builtin(Int))), "M" + ("1A" + "i"),
                       ([] + [A]) + [Plain(MemberPointer(A, Plain(Builtin(Int))))], "_Z1fM1Ai");
  }

  /** No parameters, an ellipsis alone, main, and operator"" _x. */
  lemma NameSymbols()
    ensures FunctionSymbol(Identifier("f"), [], false) == "_Z1fv" && FunctionSymbol(Identifier("f"), [], true) == "_Z1fvz"
    ensures FunctionSymbol(Identifier("main"), [], false) == ""
    ensures FunctionSymbol(LiteralOperator("_x"), [Plain(Builtin(LongDouble))], false) == "_Zli2_xe"
  {
    hide Encode, TerminalCode;
    NameOfF();
    BuiltinText(LongDouble, []);
    var ps := [Plain(Builtin(LongDouble))];
    assert ps[1..] == [] && EncodeList(ps, []).out == "e" + "";
    NameOfX();
  }

  lemma NameOfX()
    ensures TerminalCode(LiteralOperator("_x"), true) == "li2_x"
  {
    assert Digits(2, 10) == "2";
    assert "li" + ("2" + "_x") == "li2_x";
  }

  lemma PointedFunction(ps: seq<TypeRef>, variadic: bool, nonThrowing: bool, ret: Type, retText: string, params: string,
                        text: string, all: string)
    requires ret.Builtin? && BuiltinCode(ret.kind) == retText && EncodeParams(ps, []) == Encoded(params, [])
    requires text == (if nonThrowing then "DoF" else "F") + (retText + (params + Ending(variadic))) && all == "P" + text
    ensures SymbolOf(Pointer(Plain(Function(Plain(ret), ps, variadic, nonThrowing)))) == "_Z1f" + all
  {
    hide Encode, SymbolOf, EncodeParams, BuiltinCode;
    var f := Function(Plain(ret), ps, variadic, nonThrowing);
    BuiltinText(ret.kind, []);
    NewType(f, [], if nonThrowing then "DoF" else "F", retText + (params + Ending(variadic)), []);
    NewType(Pointer(Plain(f)), [], "P", text, [] + [Plain(f)]);
    OneParameterSymbol(Pointer(Plain(f)), all, ([] + [Plain(f)]) + [Plain(Pointer(Plain(f)))], "_Z1f" + all);
  }

  /** f(char const*, char const*, char const&): the qualified char is the first component and the pointer to it the second,
      and each is written once. */
  lemma SubstitutionSymbol()
    ensures var c := TypeRef(Builtin(Char), Quals(false, false, true));
            var p := Plain(Pointer(c));
            FunctionSymbol(Identifier("f"), [p, p, Plain(LValueReference(c))], false) == "_Z1fPKcS0_RS_"
  {
    hide Encode;
    var c := TypeRef(Builtin(Char), Quals(false, false, true));
    var p, r := Plain(Pointer(c)), Plain(LValueReference(c));
    var t2 := [c, p];
    FirstTexts(c, p);
    LaterTexts(c, p, r);
    assert Encode(r, t2) == Encoded("RS_", t2 + [r]);
    ThreeParams(p, r, t2);
    NameOfF();
  }

  lemma FirstTexts(c: TypeRef, p: TypeRef)
    requires c == TypeRef(Builtin(Char), Quals(false, false, true)) && p == Plain(Pointer(c))
    ensures Encode(p, []) == Encoded("PKc", [c, p])
  {
    hide Encode;
    BuiltinText(Char, []);
    EncodeCases(c, []);
    assert [] + [c] == [c] && [c] + [p] == [c, p];
    assert QualCode(c.quals) + "c" == "Kc";
    NewType(p.ty, [], "P", "Kc", [c]);
    assert "P" + "Kc" == "PKc";
  }

  lemma LaterTexts(c: TypeRef, p: TypeRef, r: TypeRef)
    requires c == TypeRef(Builtin(Char), Quals(false, false, true)) && p == Plain(Pointer(c)) && r == Plain(LValueReference(c))
    ensures Encode(p, [c, p]) == Encoded("S0_", [c, p]) && Encode(r, [c, p]) == Encoded("RS_", [c, p] + [r])
  {
    hide Encode;
    var t2 := [c, p];
    SmallIds();
    EncodeCases(p, t2);
    EncodeCases(c, t2);
    FirstIndex(p, t2, 1);
    FirstIndex(c, t2, 0);
    NewType(r.ty, t2, "R", "S_", t2);
    assert "R" + "S_" == "RS_";
  }

  lemma ThreeParams(p: TypeRef, r: TypeRef, table: seq<TypeRef>)
    requires p.quals == NO_QUALS && r.quals == NO_QUALS
    requires Encode(p, []) == Encoded("PKc", table) && Encode(p, table) == Encoded("S0_", table)
    requires Encode(r, table).out == "RS_"
    ensures EncodeParams([p, p, r], []).out == "PKcS0_RS_"
  {
    hide Encode;
    var ps := [p, p, r];
    assert ps[1..] == [p, r] && [p, r][1..] == [r] && [r][1..] == [] && Plain(p.ty) == p && Plain(r.ty) == r;
    assert EncodeList([], Encode(r, table).table).out == "";
    assert EncodeList([r], table).out == "RS_" + "";
    assert EncodeList([p, r], table).out == "S0_" + ("RS_" + "");
    assert EncodeList(ps, []).out == "PKc" + ("S0_" + ("RS_" + ""));
  }

  lemma SmallIds()
    ensures SeqId(0) == "S_" && SeqId(1) == "S0_"
  {
    assert Digits(0, 36) == "0";
  }

  /** Base 36, with capital letters. */
  lemma SequenceIds()
    ensures SeqId(11) == "SA_" && SeqId(36) == "SZ_" && SeqId(37) == "S10_"
  {
    assert Digits(10, 36) == "A" && Digits(35, 36) == "Z" && Digits(1, 36) == "1" && Digits(36, 36) == "1" + "0";
  }
}
