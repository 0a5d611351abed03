/** When a type is spelled as its normal form is: exactly when no two of its recorded components differ only in what the
    mangled text drops. */
module MangledSpelling {
  import opened Basics
  import opened Numerals
  import opened Mangler

  // ---------------------------------------------------------------- components

  /** The components of a type that the encoder records: every reference but plain builtins, parameters without their
      own qualifiers. */
  function Components(t: TypeRef): set<TypeRef>
    decreases RefSize(t), 1
  {
    if IsPlainBuiltin(t) then {}
    else {t} + if t.quals != NO_QUALS then Components(Plain(t.ty)) else PartsComponents(t.ty)
  }

  function PartsComponents(ty: Type): set<TypeRef>
    decreases TypeSize(ty), 0
  {
    match ty
    case Builtin(_) => {}
    case TypeParam(_) => {}
    case Tag(_) => {}
    case BitInt(_, _) => {}
    case Pointer(p) => Components(p)
    case LValueReference(p) => Components(p)
    case RValueReference(p) => Components(p)
    case Complex(p) => Components(p)
    case BlockPointer(p) => Components(p)
    case Vector(_, p) => Components(p)
    case Array(_, p) => Components(p)
    case MemberPointer(c, m) => Components(c) + Components(m)
    case Function(r, ps, _, _) => Components(r) + ParamsComponents(ps)
  }

  function ParamsComponents(ps: seq<TypeRef>): set<TypeRef>
    decreases ListSize(ps), 3
  {
    if ps == [] then {} else Components(Plain(ps[0].ty)) + ParamsComponents(ps[1..])
  }

  function Elements(table: seq<TypeRef>): set<TypeRef> {
    set t | t in table
  }

  /** A table that holds the components of what it holds, as every table the encoder builds from nothing does. */
  predicate Closed(table: seq<TypeRef>) {
    forall t :: t in table ==> Components(t) <= Elements(table)
  }

  lemma ElementsSnoc(table: seq<TypeRef>, t: TypeRef)
    ensures Elements(table + [t]) == Elements(table) + {t}
  {
  }

  /** Encoding records exactly the components. */
  lemma {:induction false} EncodingRecordsComponents(t: TypeRef, table: seq<TypeRef>)
    requires Closed(table)
    ensures var after := Encode(t, table).table;
            Closed(after) && Elements(after) == Elements(table) + Components(t)
    decreases RefSize(t), 1
  {
    hide Encode, PartsComponents, Closed, EncodeParts, TypeSize;
    EncodeCases(t, table);
    if IsPlainBuiltin(t) {
    } else if t in table {
      ComponentsOfElement(t, table);
    } else if t.quals != NO_QUALS {
      var e := Encode(Plain(t.ty), table);
      EncodingRecordsComponents(Plain(t.ty), table);
      ElementsSnoc(e.table, t);
      StillClosed(e.table, t);
    } else {
      var e := EncodeParts(t.ty, table);
      PartsRecordComponents(t.ty, table);
      ElementsSnoc(e.table, t);
      StillClosed(e.table, t);
    }
  }

  lemma ComponentsOfElement(t: TypeRef, table: seq<TypeRef>)
    requires Closed(table) && t in table
    ensures Components(t) <= Elements(table)
  {
  }

  lemma StillClosed(table: seq<TypeRef>, t: TypeRef)
    requires Closed(table) && Components(t) <= Elements(table) + {t}
    ensures Closed(table + [t])
  {
    hide Components;
    ElementsSnoc(table, t);
  }

  lemma {:induction false} PartsRecordComponents(ty: Type, table: seq<TypeRef>)
    requires Closed(table)
    ensures var after := EncodeParts(ty, table).table;
            Closed(after) && Elements(after) == Elements(table) + PartsComponents(ty)
    decreases TypeSize(ty), 0
  {
    hide Encode, Components, Closed, RefSize, Elements;
    match ty
    case Builtin(_) =>
    case TypeParam(_) =>
    case Tag(_) =>
    case BitInt(_, _) =>
    case Pointer(p) => EncodingRecordsComponents(p, table);
    case LValueReference(p) => EncodingRecordsComponents(p, table);
    case RValueReference(p) => EncodingRecordsComponents(p, table);
    case Complex(p) => EncodingRecordsComponents(p, table);
    case BlockPointer(p) => EncodingRecordsComponents(p, table);
    case Vector(_, p) => EncodingRecordsComponents(p, table);
    case Array(_, p) => EncodingRecordsComponents(p, table);
    case MemberPointer(c, m) =>
      EncodingRecordsComponents(c, table);
      EncodingRecordsComponents(m, Encode(c, table).table);
    case Function(r, ps, _, _) =>
      EncodingRecordsComponents(r, table);
      ParamsRecordComponents(ps, Encode(r, table).table);
  }

  lemma {:induction false} ParamsRecordComponents(ps: seq<TypeRef>, table: seq<TypeRef>)
    requires Closed(table)
    ensures var after := EncodeList(ps, table).table;
            Closed(after) && Elements(after) == Elements(table) + ParamsComponents(ps) && EncodeParams(ps, table).table == after
    decreases ListSize(ps), 3
  {
    hide Encode, Components, Closed, TypeSize, Elements;
    if ps != [] {
      var p := Plain(ps[0].ty);
      EncodingRecordsComponents(p, table);
      ParamsRecordComponents(ps[1..], Encode(p, table).table);
    }
  }

  // ---------------------------------------------------------------- normal forms

  lemma {:induction false} NormalIsNormal(ty: Type)
    ensures NormalType(NormalType(ty)) == NormalType(ty)
    decreases TypeSize(ty), 0
  {
    hide RefSize;
    match ty
    case Builtin(_) =>
    case TypeParam(_) =>
    case Tag(_) =>
    case BitInt(_, _) =>
    case Pointer(p) => NormalRefIsNormal(p);
    case LValueReference(p) => NormalRefIsNormal(p);
    case RValueReference(p) => NormalRefIsNormal(p);
    case Complex(p) => NormalRefIsNormal(p);
    case BlockPointer(p) => NormalRefIsNormal(p);
    case Vector(_, p) => NormalRefIsNormal(p);
    case Array(_, p) => NormalRefIsNormal(p);
    case MemberPointer(c, m) =>
      NormalRefIsNormal(c);
      NormalRefIsNormal(m);
    case Function(r, ps, _, _) =>
      NormalRefIsNormal(r);
      NormalParamsAreNormal(ps);
  }

  lemma NormalRefIsNormal(t: TypeRef)
    ensures Normal(Normal(t)) == Normal(t)
    decreases RefSize(t), 1
  {
    NormalIsNormal(t.ty);
  }

  lemma {:induction false} NormalParamsAreNormal(ps: seq<TypeRef>)
    ensures NormalParams(NormalParams(ps)) == NormalParams(ps)
    ensures NoVoid(NormalParams(NoVoid(NormalParams(ps)))) == NoVoid(NormalParams(ps))
    decreases ListSize(ps), 3
  {
    if ps != [] {
      NormalIsNormal(ps[0].ty);
      NormalParamsAreNormal(ps[1..]);
      var n := NormalParams(ps);
      assert n[1..] == NormalParams(ps[1..]);
    }
  }

  lemma {:induction false} NormalIsNamed(ty: Type)
    requires NamedType(ty)
    ensures NamedType(NormalType(ty))
    decreases TypeSize(ty), 0
  {
    hide RefSize;
    match ty
    case Builtin(_) =>
    case TypeParam(_) =>
    case Tag(_) =>
    case BitInt(_, _) =>
    case Pointer(p) => NormalRefIsNamed(p);
    case LValueReference(p) => NormalRefIsNamed(p);
    case RValueReference(p) => NormalRefIsNamed(p);
    case Complex(p) => NormalRefIsNamed(p);
    case BlockPointer(p) => NormalRefIsNamed(p);
    case Vector(_, p) => NormalRefIsNamed(p);
    case Array(_, p) => NormalRefIsNamed(p);
    case MemberPointer(c, m) =>
      NormalRefIsNamed(c);
      NormalRefIsNamed(m);
    case Function(r, ps, _, _) =>
      NormalRefIsNamed(r);
      NormalParamsAreNamed(ps);
  }

  lemma NormalRefIsNamed(t: TypeRef)
    requires Named(t)
    ensures Named(Normal(t))
    decreases RefSize(t), 1
  {
    NormalIsNamed(t.ty);
  }

  lemma {:induction false} NormalParamsAreNamed(ps: seq<TypeRef>)
    requires NamedParams(ps)
    ensures NamedParams(NormalParams(ps)) && NamedParams(NoVoid(NormalParams(ps)))
    decreases ListSize(ps), 3
  {
    if ps != [] {
      NormalIsNamed(ps[0].ty);
      NormalParamsAreNamed(ps[1..]);
      var n := NormalParams(ps);
      assert n[1..] == NormalParams(ps[1..]);
    }
  }

  /** A table of components in normal form. */
  predicate AllNormal(table: seq<TypeRef>) {
    forall i :: 0 <= i < |table| ==> Normal(table[i]) == table[i]
  }

  lemma NormalTableIsNormal(table: seq<TypeRef>)
    ensures AllNormal(NormalTable(table))
    ensures AllNormal(table) ==> NormalTable(table) == table
  {
    hide Normal;
    forall i | 0 <= i < |table| ensures Normal(NormalTable(table)[i]) == NormalTable(table)[i] {
      NormalRefIsNormal(table[i]);
    }
  }

  /** A type in normal form leaves a table in normal form. */
  lemma {:induction false} NormalTypesRecordNormalComponents(t: TypeRef, table: seq<TypeRef>)
    requires Normal(t) == t && AllNormal(table)
    ensures AllNormal(Encode(t, table).table)
    decreases RefSize(t), 1
  {
    hide Encode, EncodeParts, NormalType, TypeSize;
    EncodeCases(t, table);
    if IsPlainBuiltin(t) || t in table {
    } else if t.quals != NO_QUALS {
      NormalTypesRecordNormalComponents(Plain(t.ty), table);
    } else {
      NormalPartsRecordNormalComponents(t.ty, table);
    }
  }

  lemma {:induction false} NormalPartsRecordNormalComponents(ty: Type, table: seq<TypeRef>)
    requires NormalType(ty) == ty && AllNormal(table)
    ensures AllNormal(EncodeParts(ty, table).table)
    decreases TypeSize(ty), 0
  {
    hide Encode, Normal, AllNormal, RefSize;
    match ty
    case Builtin(_) =>
    case TypeParam(_) =>
    case Tag(_) =>
    case BitInt(_, _) =>
    case Pointer(p) => NormalTypesRecordNormalComponents(p, table);
    case LValueReference(p) => NormalTypesRecordNormalComponents(p, table);
    case RValueReference(p) => NormalTypesRecordNormalComponents(p, table);
    case Complex(p) => NormalTypesRecordNormalComponents(p, table);
    case BlockPointer(p) => NormalTypesRecordNormalComponents(p, table);
    case Vector(_, p) => NormalTypesRecordNormalComponents(p, table);
    case Array(_, p) => NormalTypesRecordNormalComponents(p, table);
    case MemberPointer(c, m) =>
      NormalTypesRecordNormalComponents(c, table);
      NormalTypesRecordNormalComponents(m, Encode(c, table).table);
    case Function(r, ps, _, _) =>
      NormalTypesRecordNormalComponents(r, table);
      NormalListsStay(ps);
      NormalParamsRecordNormalComponents(ps, Encode(r, table).table);
  }

  lemma NormalListsStay(ps: seq<TypeRef>)
    requires NoVoid(NormalParams(ps)) == ps
    ensures NormalParams(ps) == ps
  {
  }

  lemma {:induction false} NormalParamsRecordNormalComponents(ps: seq<TypeRef>, table: seq<TypeRef>)
    requires NormalParams(ps) == ps && AllNormal(table)
    ensures AllNormal(EncodeList(ps, table).table) && AllNormal(EncodeParams(ps, table).table)
    decreases ListSize(ps), 3
  {
    hide Encode, AllNormal, NormalType, TypeSize;
    if ps != [] {
      var n := NormalParams(ps);
      assert n[0] == ps[0] && n[1..] == NormalParams(ps[1..]);
      NormalTypesRecordNormalComponents(Plain(ps[0].ty), table);
      NormalParamsRecordNormalComponents(ps[1..], Encode(Plain(ps[0].ty), table).table);
    }
  }

  // ---------------------------------------------------------------- spelled alike while nothing clashes

  lemma IndexIsUnique(key: TypeRef, table: seq<TypeRef>, i: nat)
    requires i < |table| && table[i] == key && NoDuplicates(table)
    ensures IndexOf(key, table) == i
  {
    var k := IndexOf(key, table);
  }

  lemma PrefixHasNoDuplicates(table: seq<TypeRef>, more: seq<TypeRef>)
    requires |table| <= |more| && more[..|table|] == table && NoDuplicates(NormalTable(more))
    ensures NoDuplicates(NormalTable(table))
  {
    hide Normal;
    forall i, j | 0 <= i < j < |table| ensures NormalTable(table)[i] != NormalTable(table)[j] {
      assert more[i] == more[..|table|][i] && more[j] == more[..|table|][j];
      assert NormalTable(more)[i] != NormalTable(more)[j];
    }
  }

  /** A type that is recorded last, and clashes with nothing, was not recorded in normal form before. */
  lemma RecordedLast(table: seq<TypeRef>, before: seq<TypeRef>, t: TypeRef)
    requires |before| <= |table| && table[..|before|] == before && NoDuplicates(NormalTable(table + [t]))
    ensures NoDuplicates(NormalTable(table)) && Normal(t) !in NormalTable(before)
    ensures NormalTable(table + [t]) == NormalTable(table) + [Normal(t)]
  {
    hide Normal;
    NormalTableSnoc(table, t);
    var all := NormalTable(table + [t]);
    assert (table + [t])[..|table|] == table;
    PrefixHasNoDuplicates(table, table + [t]);
    forall i | 0 <= i < |before| ensures NormalTable(before)[i] != Normal(t) {
      assert table[i] == table[..|before|][i];
      assert all[i] == Normal(table[i]) && all[|table|] == Normal(t);
    }
  }

  lemma TableGrows(t: TypeRef, table: seq<TypeRef>)
    ensures var after := Encode(t, table).table; |table| <= |after| && after[..|table|] == table
  {
    hide Encode, RefSize, NoDuplicates;
    EncodingGrowsTheTable(t, table);
  }

  /** While no two recorded components share a normal form, the normal form is spelled and recorded alike. */
  lemma {:induction false} SpelledAlike(t: TypeRef, table: seq<TypeRef>)
    requires NoDuplicates(NormalTable(Encode(t, table).table))
    ensures Encode(Normal(t), NormalTable(table)) == Encoded(Encode(t, table).out, NormalTable(Encode(t, table).table))
    decreases RefSize(t), 1
  {
    hide Encode, EncodeParts, NormalTable, NoDuplicates, HeadCode, QualCode, SeqId, TypeSize, NormalType;
    var n, normals := Normal(t), NormalTable(table);
    EncodeCases(t, table);
    EncodeCases(n, normals);
    if IsPlainBuiltin(t) {
      NormalBuiltin(t.ty.kind);
      assert BuiltinCode(NormalKind(t.ty.kind)) == BuiltinCode(t.ty.kind);
    } else if t in table {
      NotPlain(t);
      NormalTableAt(table, IndexOf(t, table));
      IndexIsUnique(n, normals, IndexOf(t, table));
    } else if t.quals != NO_QUALS {
      var e := Encode(Plain(t.ty), table);
      TableGrows(Plain(t.ty), table);
      RecordedLast(e.table, table, t);
      SpelledAlike(Plain(t.ty), table);
    } else {
      NotPlain(t);
      var e := EncodeParts(t.ty, table);
      PartsTableGrows(t.ty, table);
      RecordedLast(e.table, table, t);
      HeadOfNormal(t.ty);
      PartsSpelledAlike(t.ty, table);
    }
  }

  lemma NotPlain(t: TypeRef)
    requires !IsPlainBuiltin(t)
    ensures !IsPlainBuiltin(Normal(t)) && (!t.ty.Builtin? ==> !NormalType(t.ty).Builtin?)
  {
    hide NormalParams;
  }

  lemma PartsTableGrows(ty: Type, table: seq<TypeRef>)
    ensures var after := EncodeParts(ty, table).table; |table| <= |after| && after[..|table|] == table
  {
    hide EncodeParts, RefSize, NoDuplicates;
    PartsGrowTheTable(ty, table);
  }

  lemma {:induction false} PartsSpelledAlike(ty: Type, table: seq<TypeRef>)
    requires !ty.Builtin? && NoDuplicates(NormalTable(EncodeParts(ty, table).table))
    ensures EncodeParts(NormalType(ty), NormalTable(table))
         == Encoded(EncodeParts(ty, table).out, NormalTable(EncodeParts(ty, table).table))
    decreases TypeSize(ty), 0
  {
    hide Encode, NormalTable, NoDuplicates, Normal, RefSize;
    match ty
    case TypeParam(_) =>
    case Tag(_) =>
    case BitInt(_, _) =>
    case Pointer(p) => SpelledAlike(p, table);
    case LValueReference(p) => SpelledAlike(p, table);
    case RValueReference(p) => SpelledAlike(p, table);
    case Complex(p) => SpelledAlike(p, table);
    case BlockPointer(p) => SpelledAlike(p, table);
    case Vector(_, p) => SpelledAlike(p, table);
    case Array(_, p) => SpelledAlike(p, table);
    case MemberPointer(c, m) =>
      var e := Encode(c, table);
      TableGrows(m, e.table);
      PrefixHasNoDuplicates(e.table, Encode(m, e.table).table);
      SpelledAlike(c, table);
      SpelledAlike(m, e.table);
    case Function(r, ps, _, _) =>
      hide EncodeParams, NormalParams, NoVoid;
      var e := Encode(r, table);
      ParamsTableGrows(ps, e.table);
      PrefixHasNoDuplicates(e.table, EncodeParams(ps, e.table).table);
      SpelledAlike(r, table);
      ParamsSpelledAlike(ps, e.table);
  }

  lemma ParamsTableGrows(ps: seq<TypeRef>, table: seq<TypeRef>)
    ensures var after := EncodeParams(ps, table).table; |table| <= |after| && after[..|table|] == table
    ensures var after := EncodeList(ps, table).table; |table| <= |after| && after[..|table|] == table
  {
    hide EncodeParams, EncodeList, RefSize, NoDuplicates;
    ParamsGrowTheTable(ps, table);
  }

  lemma {:induction false} ParamsSpelledAlike(ps: seq<TypeRef>, table: seq<TypeRef>)
    requires NoDuplicates(NormalTable(EncodeParams(ps, table).table))
    ensures EncodeParams(NoVoid(NormalParams(ps)), NormalTable(table))
         == Encoded(EncodeParams(ps, table).out, NormalTable(EncodeParams(ps, table).table))
    decreases ListSize(ps), 4
  {
    hide EncodeList, NormalTable, NoDuplicates;
    if ps != [] {
      if NormalParams(ps) == [Plain(Builtin(Void))] {
        LoneVoidIsV(ps, table);
      } else {
        ListSpelledAlike(ps, table);
      }
    }
  }

  lemma {:induction false} AsManyNormalParams(ps: seq<TypeRef>)
    ensures |NormalParams(ps)| == |ps|
  {
    if ps != [] {
      AsManyNormalParams(ps[1..]);
    }
  }

  /** A lone void parameter is written as no parameters are. */
  lemma LoneVoidIsV(ps: seq<TypeRef>, table: seq<TypeRef>)
    requires NormalParams(ps) == [Plain(Builtin(Void))]
    ensures EncodeList(ps, table) == Encoded("v", table)
  {
    AsManyNormalParams(ps);
    assert ps[1..] == [];
    assert NormalParams(ps)[0] == Plain(NormalType(ps[0].ty));
    VoidIsNormal(ps[0].ty);
    assert EncodeList(ps[1..], table) == Encoded("", table);
    assert Encode(Plain(Builtin(Void)), table) == Encoded("v", table);
    assert "v" + "" == "v";
  }

  lemma VoidIsNormal(ty: Type)
    requires NormalType(ty) == Builtin(Void)
    ensures ty == Builtin(Void)
  {
    hide NormalParams, Normal;
  }

  lemma {:induction false} ListSpelledAlike(ps: seq<TypeRef>, table: seq<TypeRef>)
    requires NoDuplicates(NormalTable(EncodeList(ps, table).table))
    ensures EncodeList(NormalParams(ps), NormalTable(table))
         == Encoded(EncodeList(ps, table).out, NormalTable(EncodeList(ps, table).table))
    decreases ListSize(ps), 3
  {
    hide Encode, NormalTable, NoDuplicates, NormalType, TypeSize;
    if ps != [] {
      var p := Plain(ps[0].ty);
      var e := Encode(p, table);
      var n := NormalParams(ps);
      assert n[0] == Normal(p) && Plain(n[0].ty) == n[0] && n[1..] == NormalParams(ps[1..]);
      ParamsTableGrows(ps[1..], e.table);
      PrefixHasNoDuplicates(e.table, EncodeList(ps[1..], e.table).table);
      SpelledAlike(p, table);
      ListSpelledAlike(ps[1..], e.table);
    }
  }

  // ---------------------------------------------------------------- exactly

  /** From any table whose entries differ in normal form, a named type is spelled as its normal form if and only if the
      entries still differ in normal form afterwards. */
  lemma SpelledAsNormalExactly(t: TypeRef, table: seq<TypeRef>)
    requires Named(t) && NoDuplicates(NormalTable(table))
    ensures Encode(t, table).out == Encode(Normal(t), NormalTable(table)).out
            <==> NoDuplicates(NormalTable(Encode(t, table).table))
  {
    hide Encode, Decode, NormalTable, NoDuplicates, Normal, Named, AllNormal, RefSize;
    var e, n := Encode(t, table), Encode(Normal(t), NormalTable(table));
    if NoDuplicates(NormalTable(e.table)) {
      SpelledAlike(t, table);
    }
    if e.out == n.out {
      RoundTrip(t, table, e.out, e.table, "");
      NormalRefIsNamed(t);
      NormalRefIsNormal(t);
      NormalTableIsNormal(table);
      NormalTableIsNormal(NormalTable(table));
      RoundTrip(Normal(t), NormalTable(table), n.out, n.table, "");
      NormalTypesRecordNormalComponents(Normal(t), NormalTable(table));
      NormalTableIsNormal(n.table);
      assert NormalTable(e.table) == n.table;
      TableStaysApart(Normal(t), NormalTable(table));
    }
  }

  lemma TableStaysApart(t: TypeRef, table: seq<TypeRef>)
    requires NoDuplicates(table)
    ensures NoDuplicates(Encode(t, table).table)
  {
    hide Encode, RefSize, NoDuplicates;
    EncodingGrowsTheTable(t, table);
  }

  /** No two components differ only in what the mangled text drops. */
  predicate NoClash(components: set<TypeRef>) {
    forall a, b :: a in components && b in components && Normal(a) == Normal(b) ==> a == b
  }

  lemma ClashIsDuplicate(table: seq<TypeRef>)
    requires NoDuplicates(table)
    ensures NoDuplicates(NormalTable(table)) <==> NoClash(Elements(table))
  {
    hide Normal;
    var normals := NormalTable(table);
    if NoDuplicates(normals) {
      forall a, b | a in Elements(table) && b in Elements(table) && Normal(a) == Normal(b) ensures a == b {
        var i :| 0 <= i < |table| && table[i] == a;
        var j :| 0 <= j < |table| && table[j] == b;
        assert normals[i] == normals[j];
      }
    }
    if NoClash(Elements(table)) {
      forall i, j | 0 <= i < j < |table| ensures normals[i] != normals[j] {
        assert table[i] in Elements(table) && table[j] in Elements(table);
      }
    }
  }

  /** The condition in terms of the type alone: a named type is mangled as its normal form is if and only if no two of
      its components share a normal form. */
  lemma MangledAsNormalExactly(t: TypeRef)
    requires Named(t)
    ensures Encode(t, []).out == Encode(Normal(t), []).out <==> NoClash(Components(t))
  {
    hide Encode, Normal, Named, Components, NoDuplicates, NoClash, Elements;
    var none: seq<TypeRef> := [];
    EmptyTable();
    assert NormalTable(none) == none;
    SpelledAsNormalExactly(t, none);
    EncodingRecordsComponents(t, none);
    TableStaysApart(t, none);
    ClashIsDuplicate(Encode(t, none).table);
    assert Elements(none) + Components(t) == Components(t);
  }

  lemma EmptyTable()
    ensures Closed([]) && NoDuplicates([]) && NoDuplicates(NormalTable([])) && Elements([]) == {}
  {
    var none: seq<TypeRef> := [];
    assert NormalTable(none) == none;
  }

  /** The same for symbols: a global function is named as with its parameters in normal form if and only if no two
      components of its parameters share a normal form, and an operator is unary with both; a lone void would count as a
      parameter. */
  lemma SymbolAsNormalExactly(n: FunctionName, ps: seq<TypeRef>, variadic: bool)
    requires NamedParams(ps) && n != Identifier("main")
    ensures FunctionSymbol(n, ps, variadic) == FunctionSymbol(n, NoVoid(NormalParams(ps)), variadic)
            <==> NoClash(ParamsComponents(ps)) && SameTerminal(n, ps, NoVoid(NormalParams(ps)))
  {
    hide EncodeParams, SameTerminal, NormalParams, NamedParams, ParamsComponents, NoClash, NoDuplicates, NoVoid, Elements;
    var none: seq<TypeRef> := [];
    var qs := NoVoid(NormalParams(ps));
    var e := EncodeParams(ps, none);
    EmptyTable();
    assert NormalTable(none) == none;
    SymbolsAsTexts(n, ps, qs, variadic);
    ParamsRecordComponents(ps, none);
    ParamsTableApart(ps, none);
    ClashIsDuplicate(e.table);
    assert Elements(none) + ParamsComponents(ps) == ParamsComponents(ps);
    if NoDuplicates(NormalTable(e.table)) {
      ParamsSpelledAlike(ps, none);
    }
    if e.out == EncodeParams(qs, none).out {
      SameTextSameTable(ps, none);
    }
  }

  /** The name is coded alike for both numbers of parameters. */
  predicate SameTerminal(n: FunctionName, ps: seq<TypeRef>, qs: seq<TypeRef>) {
    TerminalCode(n, |ps| == 1) == TerminalCode(n, |qs| == 1)
  }

  lemma SymbolsAsTexts(n: FunctionName, ps: seq<TypeRef>, qs: seq<TypeRef>, variadic: bool)
    requires n != Identifier("main")
    ensures FunctionSymbol(n, ps, variadic) == FunctionSymbol(n, qs, variadic)
            <==> EncodeParams(ps, []).out == EncodeParams(qs, []).out && SameTerminal(n, ps, qs)
  {
    hide EncodeParams, TerminalCode;
    TerminalLength(n);
    var z := if variadic then "z" else "";
    var a, b := EncodeParams(ps, []).out, EncodeParams(qs, []).out;
    if FunctionSymbol(n, ps, variadic) == FunctionSymbol(n, qs, variadic) {
      var t, u := TerminalCode(n, |ps| == 1), TerminalCode(n, |qs| == 1);
      EqualHalves("_Z", t + (a + z), "_Z", u + (b + z));
      EqualHalves(t, a + z, u, b + z);
      assert (a + z)[..|a + z| - |z|] == a && (b + z)[..|b + z| - |z|] == b;
    }
  }

  lemma EqualHalves(a: string, b: string, c: string, d: string)
    requires |a| == |c| && a + b == c + d
    ensures a == c && b == d
  {
    assert a == (a + b)[..|a|] && b == (a + b)[|a|..];
    assert c == (c + d)[..|c|] && d == (c + d)[|c|..];
  }

  lemma ParamsTableApart(ps: seq<TypeRef>, table: seq<TypeRef>)
    requires NoDuplicates(table)
    ensures NoDuplicates(EncodeParams(ps, table).table) && NoDuplicates(EncodeList(ps, table).table)
  {
    hide EncodeParams, EncodeList, RefSize, NoDuplicates;
    ParamsGrowTheTable(ps, table);
  }

  /** If parameters are written as their normal form is, what they record differs in normal form. */
  lemma SameTextSameTable(ps: seq<TypeRef>, table: seq<TypeRef>)
    requires NamedParams(ps) && NoDuplicates(NormalTable(table))
    requires EncodeParams(ps, table).out == EncodeParams(NoVoid(NormalParams(ps)), NormalTable(table)).out
    ensures NoDuplicates(NormalTable(EncodeParams(ps, table).table))
  {
    hide EncodeParams, DecodeList, NormalTable, NoDuplicates, NamedParams, AllNormal, NormalParams;
    var qs, normals := NoVoid(NormalParams(ps)), NormalTable(table);
    var e, n := EncodeParams(ps, table), EncodeParams(qs, normals);
    ParamsRoundTrip(ps, table, "");
    NormalParamsAreNamed(ps);
    NormalTableIsNormal(table);
    NormalTableIsNormal(normals);
    ParamsRoundTrip(qs, normals, "");
    assert e.out + "" == n.out + "";
    NormalParamsAreNormal(ps);
    NormalListsStay(qs);
    NormalParamsRecordNormalComponents(qs, normals);
    NormalTableIsNormal(n.table);
    ParamsTableApart(qs, normals);
  }

  // ---------------------------------------------------------------- a symbol that is not that of its normal form

  function PointerTo(ty: Type): TypeRef {
    Plain(Pointer(Plain(ty)))
  }

  /** int (int) and int (const int). */
  const TAKES_INT := Function(Plain(Builtin(Int)), [Plain(Builtin(Int))], false, false)
  const TAKES_CONST_INT := Function(Plain(Builtin(Int)), [TypeRef(Builtin(Int), Quals(false, false, true))], false, false)

  lemma TheirTexts()
    ensures var a, b, fa := PointerTo(TAKES_INT), PointerTo(TAKES_CONST_INT), Plain(TAKES_INT);
            Encode(a, []) == Encoded("PFiiE", [fa, a])
            && Encode(b, [fa, a]).out == "PFiiE" && Encode(a, [fa, a]).out == "S0_"
  {
    hide Encode;
    var a, fa := PointerTo(TAKES_INT), Plain(TAKES_INT);
    var none: seq<TypeRef> := [];
    assert none + [fa] + [a] == [fa, a];
    PointerText(TAKES_INT, none);
    PointerText(TAKES_CONST_INT, [fa, a]);
    EncodeCases(a, [fa, a]);
    IndexIsUnique(a, [fa, a], 1);
    assert SeqId(1) == "S0_" by { assert Digits(0, 36) == "0"; }
  }

  lemma SymbolOfF(ps: seq<TypeRef>, params: string)
    requires EncodeParams(ps, []).out == params
    ensures FunctionSymbol(Identifier("f"), ps, false) == "_Z1f" + params
  {
    hide EncodeParams;
    assert TerminalCode(Identifier("f"), |ps| == 1) == "1f" by { assert Digits(1, 10) == "1"; }
    SymbolText(Identifier("f"), ps, "1f", params);
  }

  /** f(int (*)(int), int (*)(const int)): the qualifier that the text drops makes two components of one, and the second
      parameter is written out where a back-reference is due. */
  lemma QualifiersSplitComponents()
    ensures FunctionSymbol(Identifier("f"), [PointerTo(TAKES_INT), PointerTo(TAKES_CONST_INT)], false) == "_Z1fPFiiEPFiiE"
    ensures FunctionSymbol(Identifier("f"), [PointerTo(TAKES_INT), PointerTo(TAKES_INT)], false) == "_Z1fPFiiES0_"
    ensures NormalParams([PointerTo(TAKES_INT), PointerTo(TAKES_CONST_INT)]) == [PointerTo(TAKES_INT), PointerTo(TAKES_INT)]
  {
    hide Encode, EncodeParams, FunctionSymbol, NormalParams, TAKES_INT, TAKES_CONST_INT;
    var a, b := PointerTo(TAKES_INT), PointerTo(TAKES_CONST_INT);
    var between := [Plain(TAKES_INT), a];
    TheirTexts();
    TwoParams(a, b, [], between);
    TwoParams(a, a, [], between);
    TheirNormals();
    TwoNormals(a, b, a);
    SymbolOfF([a, b], "PFiiE" + "PFiiE");
    SymbolOfF([a, a], "PFiiE" + "S0_");
    assert "_Z1f" + ("PFiiE" + "PFiiE") == "_Z1fPFiiEPFiiE" && "_Z1f" + ("PFiiE" + "S0_") == "_Z1fPFiiES0_";
  }

  lemma TheirNormals()
    ensures Plain(NormalType(Pointer(Plain(TAKES_INT)))) == PointerTo(TAKES_INT)
    ensures Plain(NormalType(Pointer(Plain(TAKES_CONST_INT)))) == PointerTo(TAKES_INT)
  {
    SmallNormal(Plain(Builtin(Int)));
    SmallNormal(TypeRef(Builtin(Int), Quals(false, false, true)));
  }

  lemma SymbolText(n: FunctionName, ps: seq<TypeRef>, terminal: string, params: string)
    requires n != Identifier("main") && TerminalCode(n, |ps| == 1) == terminal && EncodeParams(ps, []).out == params
    ensures FunctionSymbol(n, ps, false) == "_Z" + (terminal + params)
  {
    hide TerminalCode, EncodeParams;
    assert params + "" == params;
  }

  lemma PointerText(ty: Type, table: seq<TypeRef>)
    requires ty == TAKES_INT || ty == TAKES_CONST_INT
    requires Plain(ty) !in table && PointerTo(ty) !in table
    ensures Encode(PointerTo(ty), table) == Encoded("PFiiE", table + [Plain(ty)] + [PointerTo(ty)])
  {
    hide Encode;
    SmallFunction(ty.params[0], table);
    EncodeCases(PointerTo(ty), table);
    assert EncodeParts(Pointer(Plain(ty)), table) == Encode(Plain(ty), table);
    assert "P" + "FiiE" == "PFiiE";
  }

  lemma TwoParams(a: TypeRef, b: TypeRef, table: seq<TypeRef>, between: seq<TypeRef>)
    requires a.quals == NO_QUALS && b.quals == NO_QUALS && Encode(a, table).table == between
    ensures EncodeParams([a, b], table).out == Encode(a, table).out + Encode(b, between).out
  {
    hide Encode;
    assert [a, b][1..] == [b] && [b][1..] == [];
    assert Plain(a.ty) == a && Plain(b.ty) == b;
    assert EncodeList([b][1..], Encode(b, between).table).out == "";
    assert EncodeList([b], between).out == Encode(b, between).out + "";
    assert Encode(b, between).out + "" == Encode(b, between).out;
  }

  lemma TwoNormals(a: TypeRef, b: TypeRef, n: TypeRef)
    requires Plain(NormalType(a.ty)) == n && Plain(NormalType(b.ty)) == n
    ensures NormalParams([a, b]) == [n, n]
  {
    hide NormalType;
    assert [a, b][1..] == [b] && [b][1..] == [];
    assert NormalParams([b]) == [n] + NormalParams([b][1..]);
    assert [n] + [n] == [n, n];
  }

  lemma SmallNormal(p: TypeRef)
    requires p.ty == Builtin(Int)
    ensures Normal(Plain(Function(Plain(Builtin(Int)), [p], false, false)))
         == Plain(Function(Plain(Builtin(Int)), [Plain(Builtin(Int))], false, false))
  {
    assert NormalParams([p]) == [Plain(NormalType(p.ty))] + NormalParams([p][1..]);
    assert NormalParams([p]) == [Plain(Builtin(Int))];
    var int_ := Plain(Builtin(Int));
    assert Normal(int_) == int_;
    assert NormalType(Function(int_, [p], false, false)) == Function(Normal(int_), NoVoid(NormalParams([p])), false, false);
  }

  lemma SmallFunction(p: TypeRef, table: seq<TypeRef>)
    requires p.ty == Builtin(Int)
    requires Plain(Function(Plain(Builtin(Int)), [p], false, false)) !in table
    ensures var t := Plain(Function(Plain(Builtin(Int)), [p], false, false));
            Encode(t, table) == Encoded("FiiE", table + [t])
  {
    var int_ := Plain(Builtin(Int));
    var t := Plain(Function(int_, [p], false, false));
    EncodedHead(t, table);
    EncodedHead(int_, table);
    assert Encode(int_, table) == Encoded("i", table);
    assert EncodeList([p][1..], table) == Encoded("", table);
    assert EncodeParams([p], table) == Encoded("i" + "", table);
    assert EncodeParts(t.ty, table) == Encoded("i" + (("i" + "") + "E"), table);
    assert "F" + ("i" + (("i" + "") + "E")) == "FiiE";
  }
}
