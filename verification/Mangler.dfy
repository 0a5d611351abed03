/** The Itanium type mangler on a closed type fragment: a printer that compresses repeated components to
    back-references into a growing substitution table (Itanium C++ ABI, section 5.1.10), with a decoder that
    replays the same table. */
module Mangler {
  import opened Basics
  import opened Numerals

  // ---------------------------------------------------------------- types

  datatype BuiltinKind =
    | Void | Bool | Char | SChar | UChar | Short | UShort | Int | UInt | Long | ULong | LongLong | ULongLong
    | Int128 | UInt128 | USize | WChar | Char8 | Char16 | Char32 | Float16 | Float | Double | LongDouble | NullPtr

  datatype Quals = Quals(restrict_: bool, volatile: bool, const_: bool)

  const NO_QUALS := Quals(false, false, false)

  datatype Extent = NoExtent | Size(size: nat) | ExtentParam(index: nat)

  /** Types are interned, so a type reference doubles as its own substitution key. */
  datatype TypeRef = TypeRef(ty: Type, quals: Quals)

  datatype Type =
    | Builtin(kind: BuiltinKind)
    | TypeParam(index: nat)
    | Tag(name: string)
    | BitInt(unsigned: bool, bits: nat)
    | Pointer(pointee: TypeRef)
    | LValueReference(referred: TypeRef)
    | RValueReference(referred: TypeRef)
    | Complex(element: TypeRef)
    | BlockPointer(pointee: TypeRef)
    | Vector(count: nat, element: TypeRef)
    | Array(extent: Extent, element: TypeRef)
    | MemberPointer(class_: TypeRef, member: TypeRef)
    | Function(returnType: TypeRef, params: seq<TypeRef>, variadic: bool, nonThrowing: bool)

  /** The number of type nodes. */
  function TypeSize(ty: Type): (n: nat)
    ensures n > 0
    decreases ty
  {
    match ty
    case Builtin(_) => 1
    case TypeParam(_) => 1
    case Tag(_) => 1
    case BitInt(_, _) => 1
    case Pointer(p) => 1 + RefSize(p)
    case LValueReference(p) => 1 + RefSize(p)
    case RValueReference(p) => 1 + RefSize(p)
    case Complex(p) => 1 + RefSize(p)
    case BlockPointer(p) => 1 + RefSize(p)
    case Vector(_, p) => 1 + RefSize(p)
    case Array(_, p) => 1 + RefSize(p)
    case MemberPointer(c, m) => 1 + RefSize(c) + RefSize(m)
    case Function(r, ps, _, _) => 1 + RefSize(r) + ListSize(ps)
  }

  /** A qualified reference counts one more than the type it qualifies. */
  function RefSize(t: TypeRef): (n: nat)
    ensures TypeSize(t.ty) <= n
    decreases t
  {
    TypeSize(t.ty) + if t.quals == NO_QUALS then 0 else 1
  }

  function ListSize(ps: seq<TypeRef>): nat
    decreases ps
  {
    if ps == [] then 0 else RefSize(ps[0]) + ListSize(ps[1..])
  }

  function Plain(ty: Type): TypeRef {
    TypeRef(ty, NO_QUALS)
  }

  // ---------------------------------------------------------------- sequence ids

  /** S_ for the first substitution, then S0_, S1_, ... in base 36. */
  function SeqId(index: nat): string {
    if index == 0 then "S_" else ['S'] + (Digits(index - 1, 36) + ['_'])
  }

  /** Reading a sequence id from a text that starts with S. */
  function ReadSeqId(s: string): (r: Option<(nat, string)>)
    requires s != ""
    ensures r.Some? ==> |r.value.1| < |s|
  {
    if |s| > 1 && s[1] == '_' then Some((0, s[2..]))
    else
      match ReadNumber(s[1..], 36)
      case None => None
      case Some((n, rest)) => if rest != "" && rest[0] == '_' then Some((n + 1, rest[1..])) else None
  }

  lemma ReadSeqIdOf(index: nat, rest: string)
    ensures SeqId(index) + rest != "" && (SeqId(index) + rest)[0] == 'S'
    ensures ReadSeqId(SeqId(index) + rest) == Some((index, rest))
  {
    var s := SeqId(index) + rest;
    if index == 0 {
      assert s[2..] == rest;
    } else {
      var tail := ['_'] + rest;
      assert s[1..] == Digits(index - 1, 36) + tail;
      FirstDigit(index - 1, tail, 36);
      ReadNumberOf(index - 1, tail, 36);
      assert tail[1..] == rest;
    }
  }

  /** The texts S_ and S<base-36 numeral>_. */
  predicate IsSeqId(s: string) {
    s == "S_" ||
    (|s| >= 3 && s[0] == 'S' && s[|s| - 1] == '_' && Canonical(s[1..|s| - 1], 36))
  }

  lemma SeqIdIsInjective(i: nat, j: nat)
    requires SeqId(i) == SeqId(j)
    ensures i == j
  {
    hide SeqId, ReadSeqId;
    ReadSeqIdOf(i, "");
    ReadSeqIdOf(j, "");
  }

  /** seq_id's image is exactly those texts. */
  lemma SeqIdIsOnto(s: string)
    ensures IsSeqId(s) <==> exists k :: SeqId(k) == s
  {
    if IsSeqId(s) && s != "S_" {
      hide Digits, Value, Canonical;
      var d := s[1..|s| - 1];
      DigitsOfValue(d, 36);
      Ends(s);
      assert SeqId(Value(d, 36) + 1) == s;
    } else if s == "S_" {
      assert SeqId(0) == s;
    }
    forall k: nat ensures IsSeqId(SeqId(k)) {
      SeqIdIsSeqId(k);
    }
  }

  lemma SeqIdIsSeqId(k: nat)
    ensures IsSeqId(SeqId(k))
  {
    hide Digits, Canonical;
    if k > 0 {
      DigitsAreCanonical(k - 1, 36);
      assert SeqId(k)[1..|SeqId(k)| - 1] == Digits(k - 1, 36);
    }
  }

  lemma Ends(s: string)
    requires |s| >= 2
    ensures s == [s[0]] + (s[1..|s| - 1] + [s[|s| - 1]])
  {
    assert s == s[..1] + s[1..|s| - 1] + s[|s| - 1..];
  }

  lemma DigitsStep(value: nat, last: string)
    requires last == [Digit(value % 36)]
    ensures Digits(value, 36) == if value / 36 == 0 then last else Digits(value / 36, 36) + last
  {
  }

  lemma MoreDigits(value: nat, digits: string)
    ensures Digits(value, 36) + digits ==
            if value / 36 == 0 then [Digit(value % 36)] + digits
            else Digits(value / 36, 36) + ([Digit(value % 36)] + digits)
  {
    DigitsStep(value, [Digit(value % 36)]);
  }

  /** The digit loop of the source. */
  method BuildSeqId(index: nat) returns (id: string)
    ensures id == SeqId(index)
  {
    if index == 0 {
      return "S_";
    }
    var value: nat := index - 1;
    var digits := [Digit(value % 36)];
    DigitsStep(value, digits);
    value := value / 36;
    while value != 0
      invariant if value == 0 then digits == Digits(index - 1, 36)
                else Digits(value, 36) + digits == Digits(index - 1, 36)
      decreases value
    {
      hide Digits;
      MoreDigits(value, digits);
      digits := [Digit(value % 36)] + digits;
      value := value / 36;
    }
    id := ['S'] + (digits + ['_']);
  }

  // ---------------------------------------------------------------- the code in front of a type's components

  /** What a type is, apart from its component types. */
  datatype Head =
    | HBuiltin(kind: BuiltinKind)
    | HTypeParam(index: nat)
    | HTag(name: string)
    | HBitInt(unsigned: bool, bits: nat)
    | HPointer | HLValueReference | HRValueReference | HComplex | HBlockPointer
    | HVector(count: nat)
    | HArray(extent: Extent)
    | HMemberPointer
    | HFunction(nonThrowing: bool)

  function HeadOf(ty: Type): Head {
    match ty
    case Builtin(k) => HBuiltin(k)
    case TypeParam(i) => HTypeParam(i)
    case Tag(n) => HTag(n)
    case BitInt(u, b) => HBitInt(u, b)
    case Pointer(_) => HPointer
    case LValueReference(_) => HLValueReference
    case RValueReference(_) => HRValueReference
    case Complex(_) => HComplex
    case BlockPointer(_) => HBlockPointer
    case Vector(n, _) => HVector(n)
    case Array(x, _) => HArray(x)
    case MemberPointer(_, _) => HMemberPointer
    case Function(_, _, _, nt) => HFunction(nt)
  }

  function BuiltinCode(k: BuiltinKind): string {
    match k
    case Void => "v" case Bool => "b" case Char => "c" case SChar => "a" case UChar => "h"
    case Short => "s" case UShort => "t" case Int => "i" case UInt => "j" case Long => "l" case ULong => "m"
    case LongLong => "x" case ULongLong => "y" case Int128 => "n" case UInt128 => "o"
    case USize => "m"
    case WChar => "w" case Char8 => "Du" case Char16 => "Ds" case Char32 => "Di"
    case Float16 => "DF16_" case Float => "f" case Double => "d" case LongDouble => "e" case NullPtr => "Dn"
  }

  /** T_ , T0_ , T1_ , ... */
  function ParamCode(index: nat): string {
    if index == 0 then "T_" else ['T'] + (Digits(index - 1, 10) + ['_'])
  }

  function ExtentCode(x: Extent): string {
    match x
    case NoExtent => ""
    case Size(n) => Digits(n, 10)
    case ExtentParam(i) => ParamCode(i)
  }

  /** A length-prefixed source name. */
  function SourceName(name: string): string {
    Digits(|name|, 10) + name
  }

  function HeadCode(h: Head): string {
    match h
    case HBuiltin(k) => BuiltinCode(k)
    case HTypeParam(i) => ParamCode(i)
    case HTag(n) => SourceName(n)
    case HBitInt(u, b) => (if u then "DU" else "DB") + (Digits(b, 10) + ['_'])
    case HPointer => "P"
    case HLValueReference => "R"
    case HRValueReference => "O"
    case HComplex => "C"
    case HBlockPointer => "U13block_pointer"
    case HVector(n) => "Dv" + (Digits(n, 10) + ['_'])
    case HArray(x) => ['A'] + (ExtentCode(x) + ['_'])
    case HMemberPointer => "M"
    case HFunction(nt) => if nt then "DoF" else "F"
  }

  function QualCode(q: Quals): string {
    (if q.restrict_ then "r" else "") + (if q.volatile then "V" else "") + (if q.const_ then "K" else "")
  }

  // ---------------------------------------------------------------- encoding, as a function

  /** The text appended and the substitution table afterwards. */
  datatype Encoded = Encoded(out: string, table: seq<TypeRef>)

  /** The first index of a key that is in the table. */
  function IndexOf(key: TypeRef, table: seq<TypeRef>): (i: nat)
    requires key in table
    ensures i < |table| && table[i] == key
  {
    if table[0] == key then 0 else 1 + IndexOf(key, table[1..])
  }

  predicate IsPlainBuiltin(t: TypeRef) {
    t.ty.Builtin? && t.quals == NO_QUALS
  }

  function Encode(t: TypeRef, table: seq<TypeRef>): Encoded
    decreases RefSize(t), 1
  {
    if !IsPlainBuiltin(t) && t in table then Encoded(SeqId(IndexOf(t, table)), table)
    else if t.quals != NO_QUALS then
      var e := Encode(Plain(t.ty), table);
      Encoded(QualCode(t.quals) + e.out, e.table + [t])
    else if t.ty.Builtin? then Encoded(BuiltinCode(t.ty.kind), table)
    else
      var e := EncodeParts(t.ty, table);
      Encoded(HeadCode(HeadOf(t.ty)) + e.out, e.table + [t])
  }

  /** The component types of a type, in order. */
  function EncodeParts(ty: Type, table: seq<TypeRef>): Encoded
    decreases TypeSize(ty), 0
  {
    match ty
    case Builtin(_) => Encoded("", table)
    case TypeParam(_) => Encoded("", table)
    case Tag(_) => Encoded("", table)
    case BitInt(_, _) => Encoded("", table)
    case Pointer(p) => Encode(p, table)
    case LValueReference(p) => Encode(p, table)
    case RValueReference(p) => Encode(p, table)
    case Complex(p) => Encode(p, table)
    case BlockPointer(p) => Encode(p, table)
    case Vector(_, p) => Encode(p, table)
    case Array(_, p) => Encode(p, table)
    case MemberPointer(c, m) =>
      var e1 := Encode(c, table);
      var e2 := Encode(m, e1.table);
      Encoded(e1.out + e2.out, e2.table)
    case Function(r, ps, variadic, _) =>
      var e1 := Encode(r, table);
      var e2 := EncodeParams(ps, e1.table);
      Encoded(e1.out + (e2.out + Ending(variadic)), e2.table)
  }

  function Ending(variadic: bool): string {
    if variadic then "zE" else "E"
  }

  function EncodeParams(ps: seq<TypeRef>, table: seq<TypeRef>): Encoded
    decreases ListSize(ps), 4
  {
    if ps == [] then Encoded("v", table) else EncodeList(ps, table)
  }

  /** Parameters lose their top-level qualifiers. */
  function EncodeList(ps: seq<TypeRef>, table: seq<TypeRef>): Encoded
    decreases ListSize(ps), 3
  {
    if ps == [] then Encoded("", table)
    else
      var e := Encode(Plain(ps[0].ty), table);
      var more := EncodeList(ps[1..], e.table);
      Encoded(e.out + more.out, more.table)
  }

  // ---------------------------------------------------------------- decoding

  function Expect(s: string, word: string): Option<string> {
    if word <= s then Some(s[|word|..]) else None
  }

  /** A number and the underscore after it. */
  function ReadCount(s: string): (r: Option<(nat, string)>)
    ensures r.Some? ==> |r.value.1| < |s|
  {
    match ReadNumber(s, 10)
    case None => None
    case Some((n, rest)) => if rest != "" && rest[0] == '_' then Some((n, rest[1..])) else None
  }

  /** What follows the T of a template parameter. */
  function ReadParam(s: string): (r: Option<(nat, string)>)
    ensures r.Some? ==> |r.value.1| < |s|
  {
    if s != "" && s[0] == '_' then Some((0, s[1..]))
    else
      match ReadCount(s)
      case None => None
      case Some((n, rest)) => Some((n + 1, rest))
  }

  /** An array bound up to its underscore. */
  function ReadExtent(s: string): (r: Option<(Extent, string)>)
    ensures r.Some? ==> |r.value.1| < |s|
  {
    if s == "" then None
    else if s[0] == '_' then Some((NoExtent, s[1..]))
    else if s[0] == 'T' then
      (match ReadParam(s[1..])
       case None => None
       case Some((i, rest)) => if rest != "" && rest[0] == '_' then Some((ExtentParam(i), rest[1..])) else None)
    else
      match ReadCount(s)
      case None => None
      case Some((n, rest)) => Some((Size(n), rest))
  }

  /** Codes that start with D. */
  function ReadD(c: char, s: string): (r: Option<(Head, string)>)
    ensures r.Some? ==> |r.value.1| <= |s|
  {
    if c == 'u' then Some((HBuiltin(Char8), s))
    else if c == 's' then Some((HBuiltin(Char16), s))
    else if c == 'i' then Some((HBuiltin(Char32), s))
    else if c == 'n' then Some((HBuiltin(NullPtr), s))
    else if c == 'F' then (match Expect(s, "16_") case None => None case Some(rest) => Some((HBuiltin(Float16), rest)))
    else if c == 'v' then (match ReadCount(s) case None => None case Some((n, rest)) => Some((HVector(n), rest)))
    else if c == 'B' then (match ReadCount(s) case None => None case Some((n, rest)) => Some((HBitInt(false, n), rest)))
    else if c == 'U' then (match ReadCount(s) case None => None case Some((n, rest)) => Some((HBitInt(true, n), rest)))
    else if c == 'o' then (match Expect(s, "F") case None => None case Some(rest) => Some((HFunction(true), rest)))
    else None
  }

  function ReadLetter(c: char): Option<Head> {
    match c
    case 'v' => Some(HBuiltin(Void)) case 'b' => Some(HBuiltin(Bool)) case 'c' => Some(HBuiltin(Char))
    case 'a' => Some(HBuiltin(SChar)) case 'h' => Some(HBuiltin(UChar)) case 's' => Some(HBuiltin(Short))
    case 't' => Some(HBuiltin(UShort)) case 'i' => Some(HBuiltin(Int)) case 'j' => Some(HBuiltin(UInt))
    case 'l' => Some(HBuiltin(Long)) case 'm' => Some(HBuiltin(ULong)) case 'x' => Some(HBuiltin(LongLong))
    case 'y' => Some(HBuiltin(ULongLong)) case 'n' => Some(HBuiltin(Int128)) case 'o' => Some(HBuiltin(UInt128))
    case 'w' => Some(HBuiltin(WChar)) case 'f' => Some(HBuiltin(Float)) case 'd' => Some(HBuiltin(Double))
    case 'e' => Some(HBuiltin(LongDouble))
    case 'P' => Some(HPointer) case 'R' => Some(HLValueReference) case 'O' => Some(HRValueReference)
    case 'C' => Some(HComplex) case 'M' => Some(HMemberPointer) case 'F' => Some(HFunction(false))
    case _ => None
  }

  /** A source name: its length, then that many characters. */
  function ReadName(s: string): (r: Option<(string, string)>)
    ensures r.Some? ==> |r.value.1| < |s|
  {
    match ReadNumber(s, 10)
    case None => None
    case Some((n, rest)) => if n <= |rest| then Some((rest[..n], rest[n..])) else None
  }

  function ReadHead(s: string): (r: Option<(Head, string)>)
    ensures r.Some? ==> |r.value.1| < |s|
  {
    if s == "" then None
    else if IsDigit(s[0], 10) then
      (match ReadName(s) case None => None case Some((n, rest)) => Some((HTag(n), rest)))
    else if s[0] == 'D' then (if |s| < 2 then None else ReadD(s[1], s[2..]))
    else if s[0] == 'T' then
      (match ReadParam(s[1..]) case None => None case Some((i, rest)) => Some((HTypeParam(i), rest)))
    else if s[0] == 'A' then
      (match ReadExtent(s[1..]) case None => None case Some((x, rest)) => Some((HArray(x), rest)))
    else if s[0] == 'U' then
      (match Expect(s[1..], "13block_pointer") case None => None case Some(rest) => Some((HBlockPointer, rest)))
    else
      match ReadLetter(s[0])
      case None => None
      case Some(h) => Some((h, s[1..]))
  }

  predicate IsQualLetter(c: char) {
    c == 'r' || c == 'V' || c == 'K'
  }

  function ReadOne(s: string, c: char): (r: (bool, string))
    ensures |r.1| <= |s| && (s != "" && s[0] == c ==> |r.1| < |s|)
  {
    if s != "" && s[0] == c then (true, s[1..]) else (false, s)
  }

  /** Qualifiers in the order r, V, K. */
  function ReadQuals(s: string): (r: (Quals, string))
    ensures |r.1| <= |s| && (s != "" && IsQualLetter(s[0]) ==> |r.1| < |s|)
  {
    var (r, s1) := ReadOne(s, 'r');
    var (v, s2) := ReadOne(s1, 'V');
    var (k, s3) := ReadOne(s2, 'K');
    (Quals(r, v, k), s3)
  }

  datatype Decoded<T> = Fail | Got(value: T, rest: string, table: seq<TypeRef>)

  function Decode(s: string, table: seq<TypeRef>): (d: Decoded<TypeRef>)
    ensures d.Got? ==> |d.rest| < |s|
    decreases |s|, 1
  {
    if s == "" then Fail
    else if s[0] == 'S' then
      (match ReadSeqId(s)
       case None => Fail
       case Some((i, rest)) => if i < |table| then Got(table[i], rest, table) else Fail)
    else if IsQualLetter(s[0]) then
      (var (q, rest) := ReadQuals(s);
       match Decode(rest, table)
       case Fail => Fail
       case Got(u, rest', table') =>
         if u.quals == NO_QUALS then Got(TypeRef(u.ty, q), rest', table' + [TypeRef(u.ty, q)]) else Fail)
    else
      match ReadHead(s)
      case None => Fail
      case Some((h, rest)) =>
        if h.HBuiltin? then Got(Plain(Builtin(h.kind)), rest, table)
        else
          match DecodeParts(h, rest, table)
          case Fail => Fail
          case Got(ty, rest', table') => Got(Plain(ty), rest', table' + [Plain(ty)])
  }

  function MakeUnary(h: Head, p: TypeRef): Type {
    match h
    case HPointer => Pointer(p)
    case HLValueReference => LValueReference(p)
    case HRValueReference => RValueReference(p)
    case HComplex => Complex(p)
    case HBlockPointer => BlockPointer(p)
    case HVector(n) => Vector(n, p)
    case HArray(x) => Array(x, p)
    case _ => p.ty
  }

  function DecodeParts(h: Head, s: string, table: seq<TypeRef>): (d: Decoded<Type>)
    ensures d.Got? ==> |d.rest| <= |s|
    decreases |s|, 2
  {
    match h
    case HBuiltin(k) => Got(Builtin(k), s, table)
    case HTypeParam(i) => Got(TypeParam(i), s, table)
    case HTag(n) => Got(Tag(n), s, table)
    case HBitInt(u, b) => Got(BitInt(u, b), s, table)
    case HMemberPointer =>
      (match Decode(s, table)
       case Fail => Fail
       case Got(c, rest, table1) =>
         match Decode(rest, table1)
         case Fail => Fail
         case Got(m, rest', table2) => Got(MemberPointer(c, m), rest', table2))
    case HFunction(nt) =>
      (match Decode(s, table)
       case Fail => Fail
       case Got(r, rest, table1) =>
         match DecodeList(rest, table1)
         case Fail => Fail
         case Got(ps, rest', table2) =>
           var (variadic, end) := ReadOne(rest', 'z');
           if end != "" && end[0] == 'E' then Got(Function(r, NoVoid(ps), variadic, nt), end[1..], table2) else Fail)
    case _ =>
      match Decode(s, table)
      case Fail => Fail
      case Got(p, rest, table1) => Got(MakeUnary(h, p), rest, table1)
  }

  /** A lone void means no parameters. */
  function NoVoid(ps: seq<TypeRef>): seq<TypeRef> {
    if ps == [Plain(Builtin(Void))] then [] else ps
  }

  /** Types up to a z, an E or the end of the text. */
  function DecodeList(s: string, table: seq<TypeRef>): (d: Decoded<seq<TypeRef>>)
    ensures d.Got? ==> |d.rest| <= |s|
    decreases |s|, 3
  {
    if s == "" || s[0] == 'z' || s[0] == 'E' then Got([], s, table)
    else
      match Decode(s, table)
      case Fail => Fail
      case Got(p, rest, table1) =>
        match DecodeList(rest, table1)
        case Fail => Fail
        case Got(ps, rest', table2) => Got([p] + ps, rest', table2)
  }

  // ---------------------------------------------------------------- the fragment

  /** Names a digit does not start, so that a length in front of them can be read back. */
  predicate IsName(name: string) {
    name != "" && !IsDigit(name[0], 10)
  }

  predicate Named(t: TypeRef)
    decreases RefSize(t), 1
  {
    NamedType(t.ty)
  }

  /** Every tag in the type has a name. */
  predicate NamedType(ty: Type)
    decreases TypeSize(ty), 0
  {
    match ty
    case Builtin(_) => true
    case TypeParam(_) => true
    case Tag(name) => IsName(name)
    case BitInt(_, _) => true
    case Pointer(p) => Named(p)
    case LValueReference(p) => Named(p)
    case RValueReference(p) => Named(p)
    case Complex(p) => Named(p)
    case BlockPointer(p) => Named(p)
    case Vector(_, p) => Named(p)
    case Array(_, p) => Named(p)
    case MemberPointer(c, m) => Named(c) && Named(m)
    case Function(r, ps, _, _) => Named(r) && NamedParams(ps)
  }

  predicate NamedParams(ps: seq<TypeRef>)
    decreases ListSize(ps), 3
  {
    ps == [] || (Named(ps[0]) && NamedParams(ps[1..]))
  }

  /** What a mangled name says about a type: size_t is unsigned long, parameters have no qualifiers of their own, and a
      lone void parameter is no parameter. */
  function Normal(t: TypeRef): TypeRef
    decreases RefSize(t), 1
  {
    TypeRef(NormalType(t.ty), t.quals)
  }

  function NormalKind(k: BuiltinKind): BuiltinKind {
    if k == USize then ULong else k
  }

  function NormalType(ty: Type): Type
    decreases TypeSize(ty), 0
  {
    match ty
    case Builtin(k) => Builtin(NormalKind(k))
    case TypeParam(i) => TypeParam(i)
    case Tag(name) => Tag(name)
    case BitInt(u, b) => BitInt(u, b)
    case Pointer(p) => Pointer(Normal(p))
    case LValueReference(p) => LValueReference(Normal(p))
    case RValueReference(p) => RValueReference(Normal(p))
    case Complex(p) => Complex(Normal(p))
    case BlockPointer(p) => BlockPointer(Normal(p))
    case Vector(n, p) => Vector(n, Normal(p))
    case Array(x, p) => Array(x, Normal(p))
    case MemberPointer(c, m) => MemberPointer(Normal(c), Normal(m))
    case Function(r, ps, variadic, nt) => Function(Normal(r), NoVoid(NormalParams(ps)), variadic, nt)
  }

  function NormalParams(ps: seq<TypeRef>): seq<TypeRef>
    decreases ListSize(ps), 3
  {
    if ps == [] then [] else [Plain(NormalType(ps[0].ty))] + NormalParams(ps[1..])
  }

  /** The decoder's table: the encoder's, in normal form. */
  function NormalTable(table: seq<TypeRef>): seq<TypeRef> {
    seq(|table|, i requires 0 <= i < |table| => Normal(table[i]))
  }

  lemma NormalTableSnoc(table: seq<TypeRef>, t: TypeRef)
    ensures NormalTable(table + [t]) == NormalTable(table) + [Normal(t)]
  {
    hide Normal;
  }

  function NormalHead(h: Head): Head {
    if h.HBuiltin? then HBuiltin(NormalKind(h.kind)) else h
  }

  lemma HeadOfNormal(ty: Type)
    ensures HeadOf(NormalType(ty)) == NormalHead(HeadOf(ty))
    ensures HeadCode(NormalHead(HeadOf(ty))) == HeadCode(HeadOf(ty))
    ensures NamedType(ty) ==> GoodHead(NormalHead(HeadOf(ty)))
  {
    hide Normal, NormalParams;
  }

  /** Heads whose code determines them. */
  predicate GoodHead(h: Head) {
    (h.HTag? ==> IsName(h.name)) && (h.HBuiltin? ==> h.kind != USize)
  }

  // ---------------------------------------------------------------- heads read back

  lemma ReadCountOf(n: nat, rest: string)
    ensures ReadCount((Digits(n, 10) + ['_']) + rest) == Some((n, rest))
  {
    var tail := ['_'] + rest;
    assert (Digits(n, 10) + ['_']) + rest == Digits(n, 10) + tail;
    ReadNumberOf(n, tail, 10);
    assert tail[1..] == rest;
  }

  lemma ReadParamOf(i: nat, rest: string)
    ensures ParamCode(i) + rest != "" && (ParamCode(i) + rest)[0] == 'T'
    ensures ReadParam((ParamCode(i) + rest)[1..]) == Some((i, rest))
  {
    hide ReadCount;
    var s := (ParamCode(i) + rest)[1..];
    if i == 0 {
      assert s[1..] == rest;
    } else {
      assert s == (Digits(i - 1, 10) + ['_']) + rest;
      FirstDigit(i - 1, ['_'] + rest, 10);
      ReadCountOf(i - 1, rest);
    }
  }

  lemma ReadExtentOf(x: Extent, rest: string)
    ensures ReadExtent((ExtentCode(x) + ['_']) + rest) == Some((x, rest))
  {
    hide ReadCount, ReadParam, ParamCode;
    var s := (ExtentCode(x) + ['_']) + rest;
    match x
    case NoExtent =>
      assert s == ['_'] + rest;
      assert s[1..] == rest;
    case Size(n) =>
      FirstDigit(n, ['_'], 10);
      ReadCountOf(n, rest);
    case ExtentParam(i) =>
      assert s == ParamCode(i) + (['_'] + rest);
      ReadParamOf(i, ['_'] + rest);
      assert (['_'] + rest)[1..] == rest;
  }

  lemma ReadNameOf(name: string, rest: string)
    requires IsName(name)
    ensures SourceName(name) + rest != "" && IsDigit((SourceName(name) + rest)[0], 10)
    ensures ReadName(SourceName(name) + rest) == Some((name, rest))
  {
    var tail := name + rest;
    assert SourceName(name) + rest == Digits(|name|, 10) + tail;
    FirstDigit(|name|, tail, 10);
    ReadNumberOf(|name|, tail, 10);
    assert tail[..|name|] == name && tail[|name|..] == rest;
  }

  /** The code of a head is never empty and starts neither a back-reference nor a qualifier, nor does it end a list. */
  lemma HeadStart(h: Head, rest: string)
    requires GoodHead(h)
    ensures var s := HeadCode(h) + rest;
            s != "" && s[0] != 'S' && !IsQualLetter(s[0]) && s[0] != 'z' && s[0] != 'E'
  {
    hide Digits, ReadName, ReadParam, SourceName, ParamCode, ExtentCode, BuiltinCode;
    match h
    case HBuiltin(k) => BuiltinStart(k, rest);
    case HTag(n) => ReadNameOf(n, rest);
    case HTypeParam(i) => ReadParamOf(i, rest);
    case _ =>
  }

  lemma BuiltinStart(k: BuiltinKind, rest: string)
    ensures var s := BuiltinCode(k) + rest;
            s != "" && s[0] != 'S' && !IsQualLetter(s[0]) && s[0] != 'z' && s[0] != 'E'
  {
  }

  lemma ReadBuiltin(k: BuiltinKind, rest: string)
    requires k != USize
    ensures ReadHead(BuiltinCode(k) + rest) == Some((HBuiltin(k), rest))
  {
    hide ReadExtent, ReadName, ReadParam, ReadCount;
    var s := BuiltinCode(k) + rest;
    if k == Float16 {
      assert s[2..] == "16_" + rest;
      assert s[2..][3..] == rest;
    } else if BuiltinCode(k)[0] == 'D' {
      assert s[2..] == rest;
    } else {
      assert s[1..] == rest;
    }
  }

  lemma ReadBlockPointer(rest: string)
    ensures ReadHead("U13block_pointer" + rest) == Some((HBlockPointer, rest))
  {
    var s := "U13block_pointer" + rest;
    assert s[1..] == "13block_pointer" + rest;
    assert s[1..][15..] == rest;
  }

  lemma ReadCounted(c: char, n: nat, rest: string)
    requires c == 'v' || c == 'B' || c == 'U'
    ensures ReadHead((['D', c] + (Digits(n, 10) + ['_'])) + rest)
         == Some((if c == 'v' then HVector(n) else HBitInt(c == 'U', n), rest))
  {
    hide ReadCount;
    var s := (['D', c] + (Digits(n, 10) + ['_'])) + rest;
    assert s[2..] == (Digits(n, 10) + ['_']) + rest;
    ReadCountOf(n, rest);
  }

  lemma ReadSymbol(h: Head, rest: string)
    requires h.HPointer? || h.HLValueReference? || h.HRValueReference? || h.HComplex? || h.HMemberPointer? || h == HFunction(false)
    ensures ReadHead(HeadCode(h) + rest) == Some((h, rest))
  {
    hide ReadExtent, ReadD, ReadName, ReadParam, ReadCount;
    var s := HeadCode(h) + rest;
    assert s[1..] == rest;
  }

  lemma ReadNonThrowing(rest: string)
    ensures ReadHead("DoF" + rest) == Some((HFunction(true), rest))
  {
    hide ReadExtent, ReadName, ReadParam, ReadCount, ReadLetter;
    var s := "DoF" + rest;
    assert s[2..] == "F" + rest;
    assert s[2..][1..] == rest;
  }

  lemma ReadTag(n: string, rest: string)
    requires IsName(n)
    ensures ReadHead(SourceName(n) + rest) == Some((HTag(n), rest))
  {
    hide ReadName, SourceName, ReadExtent, ReadD, ReadParam, ReadCount, ReadLetter;
    ReadNameOf(n, rest);
  }

  lemma ReadTypeParam(i: nat, rest: string)
    ensures ReadHead(ParamCode(i) + rest) == Some((HTypeParam(i), rest))
  {
    hide ReadParam, ParamCode, ReadExtent, ReadD, ReadName, ReadCount, ReadLetter;
    ReadParamOf(i, rest);
  }

  lemma ReadArray(x: Extent, rest: string)
    ensures ReadHead((['A'] + (ExtentCode(x) + ['_'])) + rest) == Some((HArray(x), rest))
  {
    hide ReadExtent, ExtentCode, ReadD, ReadName, ReadParam, ReadCount, ReadLetter;
    var s := (['A'] + (ExtentCode(x) + ['_'])) + rest;
    assert s[1..] == (ExtentCode(x) + ['_']) + rest;
    ReadExtentOf(x, rest);
  }

  /** Codes of heads are prefix-free: reading one back gives the head and leaves the rest. */
  lemma ReadHeadOf(h: Head, rest: string)
    requires GoodHead(h)
    ensures ReadHead(HeadCode(h) + rest) == Some((h, rest))
  {
    hide ReadHead, ParamCode, SourceName, ExtentCode, BuiltinCode, Digits;
    match h
    case HBuiltin(k) => ReadBuiltin(k, rest);
    case HTypeParam(i) => ReadTypeParam(i, rest);
    case HTag(n) => ReadTag(n, rest);
    case HBitInt(u, b) => ReadCounted(if u then 'U' else 'B', b, rest);
    case HVector(n) => ReadCounted('v', n, rest);
    case HArray(x) => ReadArray(x, rest);
    case HBlockPointer => ReadBlockPointer(rest);
    case HFunction(nt) => if nt { ReadNonThrowing(rest); } else { ReadSymbol(h, rest); }
    case _ => ReadSymbol(h, rest);
  }

  function Mark(present: bool, c: char): string {
    if present then [c] else ""
  }

  lemma ReadOneOf(c: char, present: bool, rest: string)
    requires rest != "" && rest[0] != c
    ensures var s := Mark(present, c) + rest;
            ReadOne(s, c) == (present, rest) && s != "" && s[0] == if present then c else rest[0]
  {
    assert "" + rest == rest && ([c] + rest)[1..] == rest;
  }

  lemma QualCodeInMarks(q: Quals, rest: string)
    ensures QualCode(q) + rest
         == Mark(q.restrict_, 'r') + (Mark(q.volatile, 'V') + (Mark(q.const_, 'K') + rest))
  {
    hide Mark;
    var a, b, c := Mark(q.restrict_, 'r'), Mark(q.volatile, 'V'), Mark(q.const_, 'K');
    assert QualCode(q) == a + b + c by { MarksOf(q); }
    assert (a + b + c) + rest == a + (b + (c + rest));
  }

  lemma MarksOf(q: Quals)
    ensures QualCode(q) == Mark(q.restrict_, 'r') + Mark(q.volatile, 'V') + Mark(q.const_, 'K')
  {
  }

  lemma ReadQualsOf(q: Quals, rest: string)
    requires q != NO_QUALS
    requires rest != "" && !IsQualLetter(rest[0])
    ensures QualCode(q) + rest != "" && IsQualLetter((QualCode(q) + rest)[0])
    ensures ReadQuals(QualCode(q) + rest) == (q, rest)
  {
    hide QualCode, ReadOne, Mark;
    var s2 := Mark(q.const_, 'K') + rest;
    var s1 := Mark(q.volatile, 'V') + s2;
    ReadOneOf('K', q.const_, rest);
    ReadOneOf('V', q.volatile, s2);
    ReadOneOf('r', q.restrict_, s1);
    QualCodeInMarks(q, rest);
  }

  // ---------------------------------------------------------------- the round trip

  /** The encoding of a type starts with a back-reference, a qualifier or a head code; never with a list end, and
      an unqualified type never with a qualifier. */
  lemma {:induction false} EncodingStart(t: TypeRef, table: seq<TypeRef>, rest: string)
    requires Named(t)
    ensures var s := Encode(t, table).out + rest;
            s != "" && s[0] != 'z' && s[0] != 'E' && (t.quals == NO_QUALS ==> !IsQualLetter(s[0]))
    decreases if t.quals == NO_QUALS then 0 else 1
  {
    hide EncodeParts, HeadCode, SeqId, QualCode, NamedType;
    if !IsPlainBuiltin(t) && t in table {
      ReadSeqIdOf(IndexOf(t, table), rest);
    } else if t.quals != NO_QUALS {
      EncodingStart(Plain(t.ty), table, rest);
      var inner := Encode(Plain(t.ty), table).out + rest;
      ReadQualsOf(t.quals, inner);
      assert Encode(t, table).out + rest == QualCode(t.quals) + inner;
    } else {
      var parts := if t.ty.Builtin? then "" else EncodeParts(t.ty, table).out;
      HeadOfNormal(t.ty);
      HeadStart(NormalHead(HeadOf(t.ty)), parts + rest);
      EncodedHead(t, table);
      assert Encode(t, table).out + rest == HeadCode(HeadOf(t.ty)) + (parts + rest);
    }
  }

  lemma EncodedHead(t: TypeRef, table: seq<TypeRef>)
    requires t.quals == NO_QUALS && (t.ty.Builtin? || t !in table)
    ensures t.ty.Builtin? ==> Encode(t, table) == Encoded(HeadCode(HeadOf(t.ty)) + "", table)
    ensures !t.ty.Builtin? ==>
              var e := EncodeParts(t.ty, table);
              Encode(t, table) == Encoded(HeadCode(HeadOf(t.ty)) + e.out, e.table + [t])
  {
    hide EncodeParts;
    if t.ty.Builtin? {
      assert BuiltinCode(t.ty.kind) + "" == BuiltinCode(t.ty.kind);
    }
  }

  /** What Decode does on a text that starts with a head code. */
  lemma DecodeAtHead(h: Head, s: string, table: seq<TypeRef>)
    requires GoodHead(h)
    ensures Decode(HeadCode(h) + s, table) ==
            if h.HBuiltin? then Got(Plain(Builtin(h.kind)), s, table)
            else
              match DecodeParts(h, s, table)
              case Fail => Fail
              case Got(ty, rest, table') => Got(Plain(ty), rest, table' + [Plain(ty)])
  {
    hide ReadHead, HeadCode, DecodeParts;
    HeadStart(h, s);
    ReadHeadOf(h, s);
  }

  lemma DecodeAtQuals(q: Quals, s: string, table: seq<TypeRef>)
    requires q != NO_QUALS && s != "" && !IsQualLetter(s[0])
    ensures Decode(QualCode(q) + s, table) ==
            match Decode(s, table)
            case Fail => Fail
            case Got(u, rest, table') =>
              if u.quals == NO_QUALS then Got(TypeRef(u.ty, q), rest, table' + [TypeRef(u.ty, q)]) else Fail
  {
    hide ReadHead, QualCode, DecodeParts, ReadQuals, ReadSeqId;
    ReadQualsOf(q, s);
  }

  lemma DecodeAtBackReference(i: nat, s: string, table: seq<TypeRef>)
    requires i < |table|
    ensures Decode(SeqId(i) + s, table) == Got(table[i], s, table)
  {
    hide ReadHead, DecodeParts, ReadSeqId, SeqId;
    ReadSeqIdOf(i, s);
  }

  /** The round trip, for every named type, every table and whatever follows: a decoder that starts with the encoder's
      table, in normal form, recovers the type in normal form, what follows, and the table the encoder was left with. */
  lemma {:induction false} RoundTrip(t: TypeRef, table: seq<TypeRef>, text: string, after: seq<TypeRef>, rest: string)
    requires Named(t) && Encode(t, table) == Encoded(text, after)
    ensures Decode(text + rest, NormalTable(table)) == Got(Normal(t), rest, NormalTable(after))
    decreases RefSize(t), 1
  {
    hide Decode, DecodeParts, EncodeParts, HeadCode, QualCode, SeqId, NormalType, NamedType, NormalTable;
    var decoderTable := NormalTable(table);
    if !IsPlainBuiltin(t) && t in table {
      NormalTableAt(table, IndexOf(t, table));
      DecodeAtBackReference(IndexOf(t, table), rest, decoderTable);
    } else if t.quals != NO_QUALS {
      var e := Encode(Plain(t.ty), table);
      EncodingStart(Plain(t.ty), table, rest);
      DecodeAtQuals(t.quals, e.out + rest, decoderTable);
      RoundTrip(Plain(t.ty), table, e.out, e.table, rest);
      NormalTableSnoc(e.table, t);
      assert Encode(t, table).out + rest == QualCode(t.quals) + (e.out + rest);
    } else {
      EncodedHead(t, table);
      HeadOfNormal(t.ty);
      var parts := if t.ty.Builtin? then "" else EncodeParts(t.ty, table).out;
      DecodeAtHead(NormalHead(HeadOf(t.ty)), parts + rest, decoderTable);
      assert Encode(t, table).out + rest == HeadCode(HeadOf(t.ty)) + (parts + rest);
      if t.ty.Builtin? {
        assert NormalType(t.ty) == Builtin(NormalKind(t.ty.kind)) by { NormalBuiltin(t.ty.kind); }
        assert "" + rest == rest;
      } else {
        PartsRoundTrip(t.ty, table, rest);
        NormalTableSnoc(EncodeParts(t.ty, table).table, t);
      }
    }
  }

  lemma NormalTableAt(table: seq<TypeRef>, i: nat)
    requires i < |table|
    ensures i < |NormalTable(table)| && NormalTable(table)[i] == Normal(table[i])
  {
  }

  lemma NormalBuiltin(k: BuiltinKind)
    ensures NormalType(Builtin(k)) == Builtin(NormalKind(k))
  {
  }

  lemma {:induction false} PartsRoundTrip(ty: Type, table: seq<TypeRef>, rest: string)
    requires NamedType(ty) && !ty.Builtin?
    ensures DecodeParts(HeadOf(ty), EncodeParts(ty, table).out + rest, NormalTable(table))
         == Got(NormalType(ty), rest, NormalTable(EncodeParts(ty, table).table))
    decreases TypeSize(ty), 0
  {
    hide Decode, Encode, NormalTable, Normal, Named, RefSize, ListSize;
    match ty
    case TypeParam(_) => assert "" + rest == rest;
    case Tag(_) => assert "" + rest == rest;
    case BitInt(_, _) => assert "" + rest == rest;
    case MemberPointer(c, m) =>
      var e1 := Encode(c, table);
      var e2 := Encode(m, e1.table);
      assert (e1.out + e2.out) + rest == e1.out + (e2.out + rest);
      RoundTrip(c, table, e1.out, e1.table, e2.out + rest);
      RoundTrip(m, e1.table, e2.out, e2.table, rest);
    case Function(r, ps, variadic, nt) =>
      hide EncodeParams, DecodeList, NoVoid, NormalParams, NamedParams;
      var e1 := Encode(r, table);
      var e2 := EncodeParams(ps, e1.table);
      var tail := Ending(variadic) + rest;
      assert (e1.out + (e2.out + Ending(variadic))) + rest == e1.out + (e2.out + tail);
      RoundTrip(r, table, e1.out, e1.table, e2.out + tail);
      EndingRead(variadic, rest);
      ParamsRoundTrip(ps, e1.table, tail);
    case Pointer(p) => RoundTrip(p, table, Encode(p, table).out, Encode(p, table).table, rest);
    case LValueReference(p) => RoundTrip(p, table, Encode(p, table).out, Encode(p, table).table, rest);
    case RValueReference(p) => RoundTrip(p, table, Encode(p, table).out, Encode(p, table).table, rest);
    case Complex(p) => RoundTrip(p, table, Encode(p, table).out, Encode(p, table).table, rest);
    case BlockPointer(p) => RoundTrip(p, table, Encode(p, table).out, Encode(p, table).table, rest);
    case Vector(_, p) => RoundTrip(p, table, Encode(p, table).out, Encode(p, table).table, rest);
    case Array(_, p) => RoundTrip(p, table, Encode(p, table).out, Encode(p, table).table, rest);
  }

  lemma EndingRead(variadic: bool, rest: string)
    ensures var s := Ending(variadic) + rest;
            var (z, end) := ReadOne(s, 'z');
            EndsList(s) && s != "" && z == variadic && end != "" && end[0] == 'E' && end[1..] == rest
  {
    var s := Ending(variadic) + rest;
    if variadic {
      assert s[1..] == "E" + rest;
    }
  }

  /** What may follow a parameter list. */
  predicate EndsList(s: string) {
    s == "" || s[0] == 'z' || s[0] == 'E'
  }

  lemma LoneVoid(table: seq<TypeRef>, rest: string)
    requires EndsList(rest)
    ensures DecodeList("v" + rest, table) == Got([Plain(Builtin(Void))], rest, table)
  {
    hide Decode;
    var s := "v" + rest;
    assert Decode(s, table) == Got(Plain(Builtin(Void)), rest, table) by { DecodeAtHead(HBuiltin(Void), rest, table); }
    assert s[0] == 'v';
    var none: seq<TypeRef> := [];
    assert DecodeList(rest, table) == Got(none, rest, table);
    assert [Plain(Builtin(Void))] + none == [Plain(Builtin(Void))];
  }

  lemma {:induction false} ParamsRoundTrip(ps: seq<TypeRef>, table: seq<TypeRef>, rest: string)
    requires NamedParams(ps) && EndsList(rest)
    ensures var e := EncodeParams(ps, table);
            var d := DecodeList(e.out + rest, NormalTable(table));
            d.Got? && NoVoid(d.value) == NoVoid(NormalParams(ps)) && d.rest == rest && d.table == NormalTable(e.table)
    decreases ListSize(ps), 4
  {
    hide DecodeList, EncodeList, NormalTable;
    if ps == [] {
      LoneVoid(NormalTable(table), rest);
    } else {
      ListRoundTrip(ps, table, rest);
    }
  }

  lemma {:induction false} ListRoundTrip(ps: seq<TypeRef>, table: seq<TypeRef>, rest: string)
    requires NamedParams(ps) && EndsList(rest)
    ensures DecodeList(EncodeList(ps, table).out + rest, NormalTable(table))
         == Got(NormalParams(ps), rest, NormalTable(EncodeList(ps, table).table))
    decreases ListSize(ps), 3
  {
    hide Encode, Decode, NormalTable, NamedType;
    if ps == [] {
      assert "" + rest == rest;
    } else {
      var p := Plain(ps[0].ty);
      var e := Encode(p, table);
      var more := EncodeList(ps[1..], e.table);
      assert (e.out + more.out) + rest == e.out + (more.out + rest);
      EncodingStart(p, table, more.out + rest);
      RoundTrip(p, table, e.out, e.table, more.out + rest);
      ListRoundTrip(ps[1..], e.table, rest);
    }
  }

  /** Encodings from the same table are prefix-free, and determine the type up to its normal form. */
  lemma EncodingIsInjective(t1: TypeRef, t2: TypeRef, table: seq<TypeRef>, rest1: string, rest2: string)
    requires Named(t1) && Named(t2)
    requires Encode(t1, table).out + rest1 == Encode(t2, table).out + rest2
    ensures Normal(t1) == Normal(t2) && rest1 == rest2
  {
    hide Decode, Encode, Normal, NormalTable;
    RoundTrip(t1, table, Encode(t1, table).out, Encode(t1, table).table, rest1);
    RoundTrip(t2, table, Encode(t2, table).out, Encode(t2, table).table, rest2);
  }

  // ---------------------------------------------------------------- the substitution table

  predicate NoDuplicates(table: seq<TypeRef>) {
    forall i, j :: 0 <= i < j < |table| ==> table[i] != table[j]
  }

  /** How a table grows while components of total size n are encoded: by entries of size at most n, none of them twice. */
  predicate Grows(table: seq<TypeRef>, table': seq<TypeRef>, n: nat) {
    && |table| <= |table'| && table'[..|table|] == table
    && (forall k :: |table| <= k < |table'| ==> RefSize(table'[k]) <= n)
    && (NoDuplicates(table) ==> NoDuplicates(table'))
  }

  lemma GrowsTrans(a: seq<TypeRef>, b: seq<TypeRef>, c: seq<TypeRef>, m: nat, n: nat)
    requires Grows(a, b, m) && Grows(b, c, n)
    ensures forall k :: m <= k && n <= k ==> Grows(a, c, k)
  {
    assert c[..|a|] == c[..|b|][..|a|];
    forall i | |a| <= i < |c| ensures RefSize(c[i]) <= if m <= n then n else m {
      if i < |b| {
        assert c[i] == c[..|b|][i];
      }
    }
  }

  /** A type bigger than all that was added since it was looked up is still not in the table. */
  lemma GrowsByOne(table: seq<TypeRef>, table': seq<TypeRef>, t: TypeRef, n: nat)
    requires Grows(table, table', n) && t !in table && n < RefSize(t)
    ensures Grows(table, table' + [t], RefSize(t))
  {
    hide RefSize;
    forall k | 0 <= k < |table'| ensures table'[k] != t {
      if k < |table| {
        assert table'[k] == table'[..|table|][k];
      }
    }
  }

  /** Encoding keeps the table free of duplicates and never changes an entry, so a back-reference names one component,
      and names it for good. */
  lemma {:induction false} EncodingGrowsTheTable(t: TypeRef, table: seq<TypeRef>)
    ensures Grows(table, Encode(t, table).table, RefSize(t))
    ensures IsPlainBuiltin(t) || t in Encode(t, table).table
    decreases RefSize(t), 1
  {
    hide EncodeParts, NoDuplicates, HeadCode, QualCode, SeqId, TypeSize;
    if !IsPlainBuiltin(t) && t in table {
    } else if t.quals != NO_QUALS {
      EncodingGrowsTheTable(Plain(t.ty), table);
      GrowsByOne(table, Encode(Plain(t.ty), table).table, t, RefSize(Plain(t.ty)));
    } else if !t.ty.Builtin? {
      PartsGrowTheTable(t.ty, table);
      GrowsByOne(table, EncodeParts(t.ty, table).table, t, TypeSize(t.ty) - 1);
    }
  }

  lemma {:induction false} PartsGrowTheTable(ty: Type, table: seq<TypeRef>)
    ensures Grows(table, EncodeParts(ty, table).table, TypeSize(ty) - 1)
    decreases TypeSize(ty), 0
  {
    hide Encode, NoDuplicates, RefSize;
    match ty
    case MemberPointer(c, m) =>
      var e1 := Encode(c, table);
      EncodingGrowsTheTable(c, table);
      EncodingGrowsTheTable(m, e1.table);
      GrowsTrans(table, e1.table, Encode(m, e1.table).table, RefSize(c), RefSize(m));
    case Function(r, ps, variadic, nt) =>
      var e1 := Encode(r, table);
      EncodingGrowsTheTable(r, table);
      ParamsGrowTheTable(ps, e1.table);
      GrowsTrans(table, e1.table, EncodeParams(ps, e1.table).table, RefSize(r), ListSize(ps));
    case Builtin(_) =>
    case TypeParam(_) =>
    case Tag(_) =>
    case BitInt(_, _) =>
    case Pointer(p) => EncodingGrowsTheTable(p, table);
    case LValueReference(p) => EncodingGrowsTheTable(p, table);
    case RValueReference(p) => EncodingGrowsTheTable(p, table);
    case Complex(p) => EncodingGrowsTheTable(p, table);
    case BlockPointer(p) => EncodingGrowsTheTable(p, table);
    case Vector(_, p) => EncodingGrowsTheTable(p, table);
    case Array(_, p) => EncodingGrowsTheTable(p, table);
  }

  lemma {:induction false} ParamsGrowTheTable(ps: seq<TypeRef>, table: seq<TypeRef>)
    ensures Grows(table, EncodeParams(ps, table).table, ListSize(ps))
    ensures Grows(table, EncodeList(ps, table).table, ListSize(ps))
    decreases ListSize(ps), 3
  {
    hide Encode, NoDuplicates, TypeSize;
    if ps != [] {
      var p := Plain(ps[0].ty);
      var e := Encode(p, table);
      EncodingGrowsTheTable(p, table);
      ParamsGrowTheTable(ps[1..], e.table);
      GrowsTrans(table, e.table, EncodeList(ps[1..], e.table).table, RefSize(p), ListSize(ps[1..]));
    }
  }

  // ---------------------------------------------------------------- symbols of global functions

  /** The name of a function in the global scope: an identifier, an operator by its spelling, or a literal operator by
      its suffix. */
  datatype FunctionName = Identifier(name: string) | Operator(spelling: string) | LiteralOperator(suffix: string)

  /** The table of operator codes; "" for what is no operator. Four operators have a code for either number of
      operands. */
  function OperatorCode(s: string, unary: bool): string {
    if OtherCode(s) != "" then OtherCode(s)
    else if ArithmeticCode(s, unary) != "" then ArithmeticCode(s, unary)
    else if AssignmentCode(s) != "" then AssignmentCode(s)
    else ComparisonCode(s)
  }

  function OtherCode(s: string): string {
    if s == "new" then "nw"
    else if s == "new[]" then "na"
    else if s == "delete" then "dl"
    else if s == "delete[]" then "da"
    else if s == "co_await" then "aw"
    else if s == "()" then "cl"
    else if s == "[]" then "ix"
    else if s == "->*" then "pm"
    else if s == "->" then "pt"
    else if s == "," then "cm"
    else ""
  }

  function ArithmeticCode(s: string, unary: bool): string {
    if s == "++" then "pp"
    else if s == "--" then "mm"
    else if s == "+" then (if unary then "ps" else "pl")
    else if s == "-" then (if unary then "ng" else "mi")
    else if s == "*" then (if unary then "de" else "ml")
    else if s == "/" then "dv"
    else if s == "%" then "rm"
    else if s == "^" then "eo"
    else if s == "&" then (if unary then "ad" else "an")
    else if s == "|" then "or"
    else if s == "~" then "co"
    else if s == "!" then "nt"
    else if s == "<<" then "ls"
    else if s == ">>" then "rs"
    else if s == "&&" then "aa"
    else if s == "||" then "oo"
    else ""
  }

  function AssignmentCode(s: string): string {
    if s == "=" then "aS"
    else if s == "+=" then "pL"
    else if s == "-=" then "mI"
    else if s == "*=" then "mL"
    else if s == "/=" then "dV"
    else if s == "%=" then "rM"
    else if s == "^=" then "eO"
    else if s == "&=" then "aN"
    else if s == "|=" then "oR"
    else if s == "<<=" then "lS"
    else if s == ">>=" then "rS"
    else ""
  }

  function ComparisonCode(s: string): string {
    if s == "<" then "lt"
    else if s == ">" then "gt"
    else if s == "==" then "eq"
    else if s == "!=" then "ne"
    else if s == "<=" then "le"
    else if s == ">=" then "ge"
    else if s == "<=>" then "ss"
    else ""
  }

  /** How many operands an operator has where its code says so. */
  datatype Operands = OneOperand | OtherOperands | AnyOperands

  datatype Coded = Coded(spelling: string, operands: Operands)

  const NoOperator := Coded("", AnyOperands)

  /** The operator whose code these two characters are, and for which number of operands. */
  function OperatorOf(a: char, b: char): Coded {
    if a == 'n' then
      (if b == 'w' then Coded("new", AnyOperands) else if b == 'a' then Coded("new[]", AnyOperands) else if b == 'g' then Coded("-", OneOperand) else if b == 't' then Coded("!", AnyOperands) else if b == 'e' then Coded("!=", AnyOperands) else NoOperator)
    else if a == 'd' then
      (if b == 'l' then Coded("delete", AnyOperands) else if b == 'a' then Coded("delete[]", AnyOperands) else if b == 'e' then Coded("*", OneOperand) else if b == 'v' then Coded("/", AnyOperands) else if b == 'V' then Coded("/=", AnyOperands) else NoOperator)
    else if a == 'a' then
      (if b == 'w' then Coded("co_await", AnyOperands) else if b == 'd' then Coded("&", OneOperand) else if b == 'n' then Coded("&", OtherOperands) else if b == 'a' then Coded("&&", AnyOperands) else if b == 'S' then Coded("=", AnyOperands) else if b == 'N' then Coded("&=", AnyOperands) else NoOperator)
    else if a == 'c' then
      (if b == 'l' then Coded("()", AnyOperands) else if b == 'm' then Coded(",", AnyOperands) else if b == 'o' then Coded("~", AnyOperands) else NoOperator)
    else if a == 'i' then
      (if b == 'x' then Coded("[]", AnyOperands) else NoOperator)
    else if a == 'p' then
      (if b == 'm' then Coded("->*", AnyOperands) else if b == 't' then Coded("->", AnyOperands) else if b == 'p' then Coded("++", AnyOperands) else if b == 's' then Coded("+", OneOperand) else if b == 'l' then Coded("+", OtherOperands) else if b == 'L' then Coded("+=", AnyOperands) else NoOperator)
    else if a == 'm' then
      (if b == 'm' then Coded("--", AnyOperands) else if b == 'i' then Coded("-", OtherOperands) else if b == 'l' then Coded("*", OtherOperands) else if b == 'I' then Coded("-=", AnyOperands) else if b == 'L' then Coded("*=", AnyOperands) else NoOperator)
    else if a == 'r' then
      (if b == 'm' then Coded("%", AnyOperands) else if b == 's' then Coded(">>", AnyOperands) else if b == 'M' then Coded("%=", AnyOperands) else if b == 'S' then Coded(">>=", AnyOperands) else NoOperator)
    else if a == 'e' then
      (if b == 'o' then Coded("^", AnyOperands) else if b == 'O' then Coded("^=", AnyOperands) else if b == 'q' then Coded("==", AnyOperands) else NoOperator)
    else if a == 'o' then
      (if b == 'r' then Coded("|", AnyOperands) else if b == 'o' then Coded("||", AnyOperands) else if b == 'R' then Coded("|=", AnyOperands) else NoOperator)
    else if a == 'l' then
      (if b == 's' then Coded("<<", AnyOperands) else if b == 'S' then Coded("<<=", AnyOperands) else if b == 't' then Coded("<", AnyOperands) else if b == 'e' then Coded("<=", AnyOperands) else NoOperator)
    else if a == 'g' then
      (if b == 't' then Coded(">", AnyOperands) else if b == 'e' then Coded(">=", AnyOperands) else NoOperator)
    else if a == 's' then
      (if b == 's' then Coded("<=>", AnyOperands) else NoOperator)
    else NoOperator
  }

  /** Four operators have one code with one operand and another one otherwise. */
  function OperandsOf(s: string, unary: bool): Operands {
    if s in {"+", "-", "*", "&"} then (if unary then OneOperand else OtherOperands) else AnyOperands
  }

  /** The code of an operator is two characters that belong to it, and to its number of operands, alone. */
  lemma OperatorCodesReadBack(s: string, unary: bool)
    ensures OperatorCode(s, unary) != "" ==>
              var c := OperatorCode(s, unary);
              |c| == 2 && !IsDigit(c[0], 10) && s != "" && OperatorOf(c[0], c[1]) == Coded(s, OperandsOf(s, unary))
    ensures OperatorOf('l', 'i').spelling == ""
    ensures OperatorCode(s, true) == "" <==> OperatorCode(s, false) == ""
  {
    hide OtherCode, ArithmeticCode, AssignmentCode, ComparisonCode, OperatorOf, OperandsOf;
    OtherReadBack(s, unary);
    ArithmeticReadBack(s, unary);
    ArithmeticArity(s);
    AssignmentReadBack(s, unary);
    ComparisonReadBack(s, unary);
    NoLiteralOperator();
  }

  lemma NoLiteralOperator()
    ensures OperatorOf('l', 'i').spelling == ""
  {
  }

  predicate ReadsBackTo(c: string, s: string, operands: Operands) {
    c != "" ==> |c| == 2 && !IsDigit(c[0], 10) && s != "" && OperatorOf(c[0], c[1]) == Coded(s, operands)
  }

  lemma OtherReadBack(s: string, unary: bool)
    ensures ReadsBackTo(OtherCode(s), s, OperandsOf(s, unary))
  {
  }

  lemma ArithmeticReadBack(s: string, unary: bool)
    ensures ReadsBackTo(ArithmeticCode(s, unary), s, OperandsOf(s, unary))
  {
  }

  lemma ArithmeticArity(s: string)
    ensures ArithmeticCode(s, true) == "" <==> ArithmeticCode(s, false) == ""
  {
  }

  lemma AssignmentReadBack(s: string, unary: bool)
    ensures ReadsBackTo(AssignmentCode(s), s, OperandsOf(s, unary))
  {
  }

  lemma ComparisonReadBack(s: string, unary: bool)
    ensures ReadsBackTo(ComparisonCode(s), s, OperandsOf(s, unary))
  {
  }

  /** An identifier that starts with "operator" is looked up among the operators. */
  function OperatorNamed(n: FunctionName): FunctionName {
    if n.Identifier? && |n.name| > 8 && n.name[..8] == "operator" && OperatorCode(n.name[8..], false) != "" then
      Operator(n.name[8..])
    else n
  }

  /** The terminal of a mangled name. What is no operator of the table is written as a name. */
  function TerminalCode(n: FunctionName, unary: bool): string {
    match OperatorNamed(n)
    case Identifier(name) => SourceName(name)
    case Operator(s) => if OperatorCode(s, unary) != "" then OperatorCode(s, unary) else SourceName("operator" + s)
    case LiteralOperator(suffix) => "li" + SourceName(suffix)
  }

  /** The names a program can give: identifiers, operators of the table, and suffixes that are identifiers. */
  predicate WellNamed(n: FunctionName) {
    match n
    case Identifier(name) => IsName(name)
    case Operator(s) => OperatorCode(s, false) != ""
    case LiteralOperator(suffix) => IsName(suffix)
  }

  /** Parameters, then z for an ellipsis; no terminator, and no return type. */
  function BareFunctionType(ps: seq<TypeRef>, variadic: bool): string {
    EncodeParams(ps, []).out + if variadic then "z" else ""
  }

  /** The symbol of a global function; main has none. An operator with one parameter is a unary one. */
  function FunctionSymbol(n: FunctionName, ps: seq<TypeRef>, variadic: bool): string {
    if n == Identifier("main") then "" else "_Z" + (TerminalCode(n, |ps| == 1) + BareFunctionType(ps, variadic))
  }

  lemma BareFunctionTypeRoundTrip(ps: seq<TypeRef>, variadic: bool)
    requires NamedParams(ps)
    ensures var d := DecodeList(BareFunctionType(ps, variadic), []);
            d.Got? && NoVoid(d.value) == NoVoid(NormalParams(ps)) && d.rest == if variadic then "z" else ""
  {
    hide DecodeList, EncodeParams, NormalParams, NoVoid;
    var none: seq<TypeRef> := [];
    assert NormalTable(none) == none;
    ParamsRoundTrip(ps, none, if variadic then "z" else "");
  }

  lemma TerminalStart(n: FunctionName, unary: bool, s: string)
    requires WellNamed(n)
    ensures var m, t := OperatorNamed(n), TerminalCode(n, unary) + s;
            match m
            case Identifier(name) => t != "" && IsDigit(t[0], 10) && ReadName(t) == Some((name, s))
            case Operator(spelling) => |t| >= 2 && !IsDigit(t[0], 10) && OperatorOf(t[0], t[1]) == Coded(spelling, OperandsOf(spelling, unary))
                                        && spelling != "" && t[2..] == s
            case LiteralOperator(suffix) => |t| >= 2 && t[0] == 'l' && t[1] == 'i' && ReadName(t[2..]) == Some((suffix, s))
  {
    hide SourceName, ReadName, OperatorCode, OperatorOf, OperandsOf;
    match OperatorNamed(n)
    case Identifier(name) => ReadNameOf(name, s);
    case Operator(spelling) =>
      OperatorCodesReadBack(spelling, unary);
      OperatorCodesReadBack(spelling, false);
    case LiteralOperator(suffix) =>
      ReadNameOf(suffix, s);
      var t := TerminalCode(n, unary) + s;
      assert t == "li" + (SourceName(suffix) + s);
      assert t[2..] == SourceName(suffix) + s;
  }

  lemma TerminalIsInjective(n1: FunctionName, u1: bool, n2: FunctionName, u2: bool, s1: string, s2: string)
    requires WellNamed(n1) && WellNamed(n2)
    requires TerminalCode(n1, u1) + s1 == TerminalCode(n2, u2) + s2
    ensures OperatorNamed(n1) == OperatorNamed(n2) && s1 == s2
  {
    hide ReadName, OperatorOf, OperandsOf, TerminalCode, OperatorNamed, WellNamed;
    TerminalStart(n1, u1, s1);
    TerminalStart(n2, u2, s2);
    OperatorCodesReadBack("", false);
  }

  /** The symbol of an operator shows which it is; and for +, -, * and & whether it has one parameter. */
  lemma SymbolShowsOperator(s: string, ps: seq<TypeRef>, variadic: bool)
    requires OperatorCode(s, false) != ""
    ensures var symbol := FunctionSymbol(Operator(s), ps, variadic);
            && |symbol| >= 4 && symbol[0] == '_' && symbol[1] == 'Z'
            && OperatorOf(symbol[2], symbol[3]).spelling == s
            && (s in {"+", "-", "*", "&"} ==> (OperatorOf(symbol[2], symbol[3]).operands == OneOperand <==> |ps| == 1))
  {
    hide OperatorCode, OperatorOf, BareFunctionType, TerminalCode;
    var bare := BareFunctionType(ps, variadic);
    TerminalStart(Operator(s), |ps| == 1, bare);
    var t := TerminalCode(Operator(s), |ps| == 1) + bare;
    assert FunctionSymbol(Operator(s), ps, variadic) == "_Z" + t;
  }

  lemma TerminalLength(n: FunctionName)
    ensures |TerminalCode(n, true)| == |TerminalCode(n, false)|
  {
    hide SourceName, OperatorCode, OperatorOf;
    var m := OperatorNamed(n);
    if m.Operator? {
      OperatorCodesReadBack(m.spelling, true);
      OperatorCodesReadBack(m.spelling, false);
    }
  }

  /** Two global functions share a symbol only if they have the same name (an identifier spelled like a word operator
      counting as that operator) and the same parameters up to normal form: overloads get different symbols. */
  lemma OverloadsHaveDistinctSymbols(n1: FunctionName, ps1: seq<TypeRef>, v1: bool, n2: FunctionName, ps2: seq<TypeRef>, v2: bool)
    requires n1 != Identifier("main") && WellNamed(n1) && NamedParams(ps1)
    requires n2 != Identifier("main") && WellNamed(n2) && NamedParams(ps2)
    requires FunctionSymbol(n1, ps1, v1) == FunctionSymbol(n2, ps2, v2)
    ensures OperatorNamed(n1) == OperatorNamed(n2) && NoVoid(NormalParams(ps1)) == NoVoid(NormalParams(ps2)) && v1 == v2
  {
    hide TerminalCode, BareFunctionType, OperatorNamed, NormalParams, DecodeList, NoVoid, WellNamed;
    var b1, b2 := BareFunctionType(ps1, v1), BareFunctionType(ps2, v2);
    assert FunctionSymbol(n1, ps1, v1)[2..] == TerminalCode(n1, |ps1| == 1) + b1;
    assert FunctionSymbol(n2, ps2, v2)[2..] == TerminalCode(n2, |ps2| == 1) + b2;
    TerminalIsInjective(n1, |ps1| == 1, n2, |ps2| == 1, b1, b2);
    BareFunctionTypeRoundTrip(ps1, v1);
    BareFunctionTypeRoundTrip(ps2, v2);
  }

  /** With the same parameters: two names share a symbol if and only if they are the same name, an identifier spelled like
      a word operator counting as that operator. */
  lemma NamesShareSymbolsExactly(n1: FunctionName, n2: FunctionName, ps: seq<TypeRef>, variadic: bool)
    requires n1 != Identifier("main") && WellNamed(n1)
    requires n2 != Identifier("main") && WellNamed(n2)
    ensures FunctionSymbol(n1, ps, variadic) == FunctionSymbol(n2, ps, variadic) <==> OperatorNamed(n1) == OperatorNamed(n2)
  {
    hide BareFunctionType, OperatorNamed, WellNamed, OperatorCode;
    var b, unary := BareFunctionType(ps, variadic), |ps| == 1;
    if OperatorNamed(n1) == OperatorNamed(n2) {
      assert TerminalCode(n1, unary) == TerminalCode(n2, unary);
    }
    if FunctionSymbol(n1, ps, variadic) == FunctionSymbol(n2, ps, variadic) {
      hide TerminalCode;
      assert FunctionSymbol(n1, ps, variadic)[2..] == TerminalCode(n1, unary) + b;
      assert FunctionSymbol(n2, ps, variadic)[2..] == TerminalCode(n2, unary) + b;
      TerminalIsInjective(n1, unary, n2, unary, b, b);
    }
  }

  /** A function the user named operatornew gets the symbol of the allocation function with the same parameters. */
  lemma IdentifierTakesOperatorSymbol(ps: seq<TypeRef>, variadic: bool)
    ensures FunctionSymbol(Identifier("operatornew"), ps, variadic) == FunctionSymbol(Operator("new"), ps, variadic)
    ensures FunctionSymbol(Operator("new"), [Plain(Builtin(ULong))], false) == "_Znwm"
  {
    hide BareFunctionType;
    var p := Plain(Builtin(ULong));
    assert "operatornew"[..8] == "operator" && "operatornew"[8..] == "new";
    CodeOfNew();
    assert BareFunctionType([p], false) == "m" by { OneParameter(p); }
    assert FunctionSymbol(Operator("new"), [p], false) == "_Z" + ("nw" + "m");
  }

  lemma CodeOfNew()
    ensures forall unary :: OperatorCode("new", unary) == "nw"
  {
  }

  lemma OneParameter(p: TypeRef)
    requires p == Plain(Builtin(ULong))
    ensures BareFunctionType([p], false) == "m"
  {
    var none: seq<TypeRef> := [];
    assert Encode(p, none) == Encoded("m", none);
    assert EncodeList([p], none).out == "m" + EncodeList([p][1..], none).out;
  }

  // ---------------------------------------------------------------- the mangler

  lemma Append3(a: string, b: string, c: string)
    ensures (a + b) + c == a + (b + c)
  {
  }

  /** The parameters a symbol shows. */
  function Shown(ps: seq<TypeRef>, skipFirst: bool, skipTrailing: nat): seq<TypeRef> {
    var tail := if skipFirst && ps != [] then ps[1..] else ps;
    if skipTrailing <= |tail| then tail[..|tail| - skipTrailing] else []
  }

  /** They are the parameters from the first that is not skipped on, in their order, but for the last ones. */
  lemma ShownByIndex(ps: seq<TypeRef>, skipFirst: bool, skipTrailing: nat)
    ensures var first := if skipFirst && ps != [] then 1 else 0;
            var shown := Shown(ps, skipFirst, skipTrailing);
            && |shown| == (if first + skipTrailing < |ps| then |ps| - first - skipTrailing else 0)
            && forall i :: 0 <= i < |shown| ==> shown[i] == ps[first + i]
  {
  }

  /** The text written so far and the substitutions it may refer to. */
  class ItaniumMangler {
    var out: string
    var substitutions: seq<TypeRef>

    constructor ()
      ensures out == "" && substitutions == []
    {
      out, substitutions := "", [];
    }

    /** Looks for a key from the front of the table, as IndexOf does. */
    method EmitSubstitution(key: TypeRef) returns (found: bool)
      modifies `out
      ensures found == (key in substitutions)
      ensures out == old(out) + if found then SeqId(IndexOf(key, substitutions)) else ""
    {
      var i := 0;
      while i < |substitutions|
        invariant 0 <= i <= |substitutions|
        invariant out == old(out)
        invariant key !in substitutions[..i]
      {
        if substitutions[i] == key {
          FirstIndex(key, substitutions, i);
          var id := BuildSeqId(i);
          out := out + id;
          return true;
        }
        i := i + 1;
      }
      assert substitutions[..i] == substitutions;
      return false;
    }

    method AddSubstitution(key: TypeRef)
      modifies `substitutions
      ensures substitutions == old(substitutions) + [key]
    {
      substitutions := substitutions + [key];
    }

    /** Writes what Encode says and leaves the table Encode leaves. */
    method EncodeType(ref: TypeRef)
      modifies this
      ensures var e := Encode(ref, old(substitutions));
              out == old(out) + e.out && substitutions == e.table
      decreases RefSize(ref), 1
    {
      hide Encode, EncodeParts, HeadCode, SeqId, TypeSize;
      ghost var before, table := out, substitutions;
      if !ref.ty.Builtin? || ref.quals != NO_QUALS {
        var found := EmitSubstitution(ref);
        if found {
          EncodeCases(ref, table);
          return;
        }
      }
      EncodeCases(ref, table);
      if ref.quals != NO_QUALS {
        if ref.quals.restrict_ {
          out := out + "r";
        }
        if ref.quals.volatile {
          out := out + "V";
        }
        if ref.quals.const_ {
          out := out + "K";
        }
        assert out == before + QualCode(ref.quals);
        EncodeType(Plain(ref.ty));
        AddSubstitution(ref);
        Append3(before, QualCode(ref.quals), Encode(Plain(ref.ty), table).out);
        return;
      }
      if ref.ty.Builtin? {
        EncodeBuiltin(ref.ty.kind);
        return;
      }
      EncodeStructure(ref.ty);
      AddSubstitution(ref);
    }

    method EncodeBuiltin(kind: BuiltinKind)
      modifies `out
      ensures out == old(out) + BuiltinCode(kind)
    {
      match kind {
        case Void => out := out + "v";
        case Bool => out := out + "b";
        case Char => out := out + "c";
        case SChar => out := out + "a";
        case UChar => out := out + "h";
        case Short => out := out + "s";
        case UShort => out := out + "t";
        case Int => out := out + "i";
        case UInt => out := out + "j";
        case Long => out := out + "l";
        case ULong => out := out + "m";
        case LongLong => out := out + "x";
        case ULongLong => out := out + "y";
        case Int128 => out := out + "n";
        case UInt128 => out := out + "o";
        case USize => out := out + "m";
        case WChar => out := out + "w";
        case Char8 => out := out + "Du";
        case Char16 => out := out + "Ds";
        case Char32 => out := out + "Di";
        case Float16 => out := out + "DF16_";
        case Float => out := out + "f";
        case Double => out := out + "d";
        case LongDouble => out := out + "e";
        case NullPtr => out := out + "Dn";
      }
    }

    /** The switch over the kinds of types, up to the registration of the component. */
    method EncodeStructure(ty: Type)
      requires !ty.Builtin?
      modifies this
      ensures var e := EncodeParts(ty, old(substitutions));
              out == old(out) + (HeadCode(HeadOf(ty)) + e.out) && substitutions == e.table
      decreases TypeSize(ty), 0
    {
      hide Encode, EncodeParams, Digits, RefSize, ListSize;
      ghost var before, table := out, substitutions;
      ghost var head := HeadCode(HeadOf(ty));
      Append3(before, head, EncodeParts(ty, table).out);
      match ty {
        case TypeParam(index) =>
          EncodeTypeParam(index);
        case Tag(name) =>
          out := out + (Digits(|name|, 10) + name);
        case BitInt(unsigned, bits) =>
          out := out + ((if unsigned then "DU" else "DB") + (Digits(bits, 10) + ['_']));
        case Pointer(p) =>
          out := out + "P";
          EncodeType(p);
        case LValueReference(p) =>
          out := out + "R";
          EncodeType(p);
        case RValueReference(p) =>
          out := out + "O";
          EncodeType(p);
        case Complex(p) =>
          out := out + "C";
          EncodeType(p);
        case BlockPointer(p) =>
          out := out + "U13block_pointer";
          EncodeType(p);
        case Vector(count, p) =>
          out := out + ("Dv" + (Digits(count, 10) + ['_']));
          EncodeType(p);
        case Array(extent, p) =>
          EncodeExtent(extent);
          EncodeType(p);
        case MemberPointer(c, m) =>
          out := out + "M";
          EncodeType(c);
          ghost var first := substitutions;
          EncodeType(m);
          Append3(before + head, Encode(c, table).out, Encode(m, first).out);
        case Function(r, ps, variadic, nonThrowing) =>
          out := out + if nonThrowing then "DoF" else "F";
          EncodeType(r);
          ghost var first := substitutions;
          EncodeParameters(ps);
          out := out + if variadic then "zE" else "E";
          Append3(before + head, Encode(r, table).out, EncodeParams(ps, first).out + Ending(variadic));
          Append3(before + head + Encode(r, table).out, EncodeParams(ps, first).out, Ending(variadic));
      }
    }

    method EncodeTypeParam(index: nat)
      modifies `out
      ensures out == old(out) + ParamCode(index)
    {
      if index == 0 {
        out := out + "T_";
      } else {
        out := out + (['T'] + (Digits(index - 1, 10) + ['_']));
      }
    }

    method EncodeExtent(extent: Extent)
      modifies `out
      ensures out == old(out) + HeadCode(HArray(extent))
    {
      ghost var before := out;
      out := out + ['A'];
      match extent {
        case NoExtent =>
        case Size(n) => out := out + Digits(n, 10);
        case ExtentParam(i) => EncodeTypeParam(i);
      }
      assert out == (before + ['A']) + ExtentCode(extent);
      out := out + ['_'];
      Append3(before, ['A'], ExtentCode(extent) + ['_']);
      Append3(before + ['A'], ExtentCode(extent), ['_']);
    }

    /** v for no parameters, otherwise each parameter without its own qualifiers. */
    method EncodeParameters(ps: seq<TypeRef>)
      modifies this
      ensures var e := EncodeParams(ps, old(substitutions));
              out == old(out) + e.out && substitutions == e.table
      decreases ListSize(ps), 4
    {
      hide Encode, TypeSize;
      if ps == [] {
        out := out + "v";
        return;
      }
      ghost var before, whole := out, EncodeList(ps, substitutions);
      var i := 0;
      assert ps[0..] == ps;
      while i < |ps|
        invariant 0 <= i <= |ps|
        invariant var e := EncodeList(ps[i..], substitutions);
                  out + e.out == before + whole.out && e.table == whole.table
      {
        ghost var done, table := out, substitutions;
        assert ps[i..][0] == ps[i] && ps[i..][1..] == ps[i + 1..];
        ListSizeAt(ps, i);
        EncodeType(Plain(ps[i].ty));
        Append3(done, Encode(Plain(ps[i].ty), table).out, EncodeList(ps[i + 1..], substitutions).out);
        i := i + 1;
      }
      assert ps[i..] == [];
    }

    /** The bare function type of a symbol: the parameters that are left when the first is skipped and some trailing ones
        are, and z for an ellipsis. */
    method EncodeBareFunctionType(ps: seq<TypeRef>, variadic: bool, skipFirst: bool, skipTrailing: nat)
      modifies this
      ensures var e := EncodeParams(Shown(ps, skipFirst, skipTrailing), old(substitutions));
              out == old(out) + (e.out + if variadic then "z" else "") && substitutions == e.table
    {
      hide EncodeParams;
      ghost var before, table := out, substitutions;
      var first := if skipFirst && ps != [] then 1 else 0;
      var last, left := |ps|, skipTrailing;
      while left > 0 && last > first
        invariant first <= last <= |ps| && 0 <= left <= skipTrailing && |ps| - last == skipTrailing - left
        decreases left
      {
        last := last - 1;
        left := left - 1;
      }
      assert (if skipFirst && ps != [] then ps[1..] else ps) == ps[first..];
      if left == 0 {
        assert ps[first..last] == ps[first..][..|ps| - first - skipTrailing];
      } else {
        assert ps[first..last] == [] && |ps[first..]| < skipTrailing;
      }
      assert ps[first..last] == Shown(ps, skipFirst, skipTrailing);
      EncodeParameters(ps[first..last]);
      Append3(before, EncodeParams(Shown(ps, skipFirst, skipTrailing), table).out, if variadic then "z" else "");
      if variadic {
        out := out + "z";
      }
    }
  }

  /** The whole symbol of a global function that is not main starts from a fresh mangler. */
  method MangleFunction(n: FunctionName, ps: seq<TypeRef>, variadic: bool) returns (symbol: string)
    ensures symbol == FunctionSymbol(n, ps, variadic)
  {
    hide EncodeParams, TerminalCode;
    if n == Identifier("main") {
      return "";
    }
    var mangler := new ItaniumMangler();
    mangler.out := "_Z";
    var terminal := TerminalCode(n, |ps| == 1);
    mangler.out := mangler.out + terminal;
    mangler.EncodeBareFunctionType(ps, variadic, false, 0);
    assert Shown(ps, false, 0) == ps;
    Append3("_Z", terminal, BareFunctionType(ps, variadic));
    symbol := mangler.out;
  }

  lemma FirstIndex(key: TypeRef, table: seq<TypeRef>, i: nat)
    requires i < |table| && table[i] == key && key !in table[..i]
    ensures IndexOf(key, table) == i
  {
    if i > 0 {
      assert table[..i][0] == table[0];
      assert table[..i][1..] == table[1..][..i - 1];
      FirstIndex(key, table[1..], i - 1);
    }
  }

  lemma ListSizeAt(ps: seq<TypeRef>, i: nat)
    requires i < |ps|
    ensures RefSize(Plain(ps[i].ty)) <= ListSize(ps)
  {
    hide TypeSize;
    if i > 0 {
      ListSizeAt(ps[1..], i - 1);
    }
  }

  /** Encode, one case at a time. */
  lemma EncodeCases(t: TypeRef, table: seq<TypeRef>)
    ensures !IsPlainBuiltin(t) && t in table ==> Encode(t, table) == Encoded(SeqId(IndexOf(t, table)), table)
    ensures t !in table && t.quals != NO_QUALS ==>
              var e := Encode(Plain(t.ty), table); Encode(t, table) == Encoded(QualCode(t.quals) + e.out, e.table + [t])
    ensures IsPlainBuiltin(t) ==> Encode(t, table) == Encoded(BuiltinCode(t.ty.kind), table)
    ensures t !in table && t.quals == NO_QUALS && !t.ty.Builtin? ==>
              var e := EncodeParts(t.ty, table); Encode(t, table) == Encoded(HeadCode(HeadOf(t.ty)) + e.out, e.table + [t])
  {
    hide EncodeParts;
  }
}
