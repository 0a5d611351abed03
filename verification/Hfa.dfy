/** AArch64 homogeneous floating-point aggregates: the accumulating walk of the call classifier against the flattened
    list of a type's members. */
module Hfa {
  import opened Basics

  datatype LongDoubleFormat = IeeeDouble | IeeeQuad | X87

  datatype Kind = Float16 | Float | Double | LongDouble | NotFloating

  datatype Type =
    | Builtin(kind: Kind)
    | Array(bound: Option<nat>, element: Type)
    | Record(complete: bool, isUnion: bool, fields: seq<Field>)
    | OtherType

  /** unsuitable: a bit-field, or a member with its own storage size or alignment. */
  datatype Field = Field(zeroSized: bool, unsuitable: bool, ty: Type)

  function Normalized(k: Kind, format: LongDoubleFormat): Kind {
    if k == LongDouble && format == IeeeDouble then Double else k
  }

  predicate IsHfaKind(k: Kind, format: LongDoubleFormat) {
    k == Float16 || k == Float || k == Double || (k == LongDouble && format == IeeeQuad)
  }

  // ---------------------------------------------------------------- members

  function Append(a: Option<seq<Kind>>, b: Option<seq<Kind>>): Option<seq<Kind>> {
    if a.Some? && b.Some? then Some(a.value + b.value) else None
  }

  /** The fundamental members of a type, in order, every one of them a floating kind; None if the type contains
      something no homogeneous aggregate may contain. */
  function Members(t: Type, format: LongDoubleFormat): Option<seq<Kind>>
    decreases t, 0
  {
    match t
    case Builtin(k) => if IsHfaKind(Normalized(k, format), format) then Some([Normalized(k, format)]) else None
    case Array(bound, e) => if bound.None? || bound.value == 0 || bound.value > 4 then None else Repeated(e, bound.value, format)
    case Record(complete, isUnion, fields) => if !complete || isUnion then None else FieldsMembers(fields, format)
    case OtherType => None
  }

  function Repeated(e: Type, n: nat, format: LongDoubleFormat): Option<seq<Kind>>
    decreases e, 1, n
  {
    if n == 0 then Some([]) else Append(Members(e, format), Repeated(e, n - 1, format))
  }

  function FieldsMembers(fields: seq<Field>, format: LongDoubleFormat): Option<seq<Kind>>
    decreases fields, 0
  {
    if fields == [] then Some([])
    else if fields[0].zeroSized then FieldsMembers(fields[1..], format)
    else Append(FieldMembers(fields[0], format), FieldsMembers(fields[1..], format))
  }

  function FieldMembers(f: Field, format: LongDoubleFormat): Option<seq<Kind>>
    decreases f, 1
  {
    if f.unsuitable then None else Members(f.ty, format)
  }

  /** The kinds an aggregate may be made of, and what long double counts as in each format. */
  lemma KindsAccepted(format: LongDoubleFormat)
    ensures forall k :: k in {Float16, Float, Double} ==> Members(Builtin(k), format) == Some([k])
    ensures Members(Builtin(LongDouble), format) ==
              (match format case IeeeDouble => Some([Double]) case IeeeQuad => Some([LongDouble]) case X87 => None)
    ensures Members(Builtin(NotFloating), format) == None && Members(OtherType, format) == None
  {
  }

  /** An array of one to four elements has the members of each, one after the other; any other bound, or none, is not
      suitable. */
  lemma ArrayMembers(e: Type, n: nat, format: LongDoubleFormat)
    ensures Members(Array(None, e), format) == None && Members(Array(Some(0), e), format) == None
    ensures n > 4 ==> Members(Array(Some(n), e), format) == None
    ensures 1 <= n <= 4 && Members(e, format) == None ==> Members(Array(Some(n), e), format) == None
    ensures 1 <= n <= 4 && Members(e, format).Some? ==>
              var ks := Members(e, format).value;
              Members(Array(Some(n), e), format)
              == Some(if n == 1 then ks else if n == 2 then ks + ks else if n == 3 then ks + ks + ks else ks + ks + ks + ks)
  {
    hide Members;
    ArrayMembersAre(e, n, format);
    if 1 <= n <= 4 {
      RepeatedMembers(e, n, format);
    }
  }

  lemma ArrayMembersAre(e: Type, n: nat, format: LongDoubleFormat)
    ensures Members(Array(None, e), format) == None && Members(Array(Some(0), e), format) == None
    ensures Members(Array(Some(n), e), format) == if 1 <= n <= 4 then Repeated(e, n, format) else None
  {
  }

  lemma RepeatedMembers(e: Type, n: nat, format: LongDoubleFormat)
    requires 1 <= n <= 4
    ensures Members(e, format) == None ==> Repeated(e, n, format) == None
    ensures Members(e, format).Some? ==>
              var ks := Members(e, format).value;
              Repeated(e, n, format)
              == Some(if n == 1 then ks else if n == 2 then ks + ks else if n == 3 then ks + ks + ks else ks + ks + ks + ks)
  {
    hide Members;
    assert Repeated(e, 0, format) == Some([]);
    if Members(e, format).Some? {
      var ks := Members(e, format).value;
      assert Repeated(e, 1, format) == Some(ks + []) && ks + [] == ks;
      assert n >= 2 ==> Repeated(e, 2, format) == Some(ks + ks);
      assert n >= 3 ==> Repeated(e, 3, format) == Some(ks + (ks + ks)) && ks + (ks + ks) == ks + ks + ks;
      assert n >= 4 ==> Repeated(e, 4, format) == Some(ks + (ks + ks + ks)) && ks + (ks + ks + ks) == ks + ks + ks + ks;
    }
  }

  /** A record has the members of its fields in their order, empty ones left out; an unsuitable field, or a union, or a
      record that is not complete, spoils it. */
  lemma RecordMembers(f: Field, more: seq<Field>, format: LongDoubleFormat)
    ensures Members(Record(true, false, []), format) == Some([])
    ensures var rest := Members(Record(true, false, more), format);
            Members(Record(true, false, [f] + more), format) ==
              if f.zeroSized then rest
              else if f.unsuitable || Members(f.ty, format).None? || rest.None? then None
              else Some(Members(f.ty, format).value + rest.value)
    ensures forall complete, isUnion :: !complete || isUnion ==> Members(Record(complete, isUnion, more), format) == None
  {
    var all := [f] + more;
    assert all[0] == f && all[1..] == more;
    assert Members(Record(true, false, all), format) == FieldsMembers(all, format);
    assert Members(Record(true, false, more), format) == FieldsMembers(more, format);
    assert FieldMembers(f, format) == if f.unsuitable then None else Members(f.ty, format);
  }

  /** Following first members down from the type ends in a record without members. */
  predicate StartsEmpty(t: Type)
    decreases t, 0
  {
    match t
    case Builtin(_) => false
    case Array(_, e) => StartsEmpty(e)
    case Record(_, _, fields) => FieldsStartEmpty(fields)
    case OtherType => false
  }

  predicate FieldsStartEmpty(fields: seq<Field>)
    decreases fields, 0
  {
    if fields == [] then true
    else if fields[0].zeroSized then FieldsStartEmpty(fields[1..])
    else FieldStartsEmpty(fields[0])
  }

  predicate FieldStartsEmpty(f: Field)
    decreases f, 1
  {
    StartsEmpty(f.ty)
  }

  /** The kind found so far, if any, and how many members. */
  datatype Found = Found(kind: Kind, count: nat)

  function KindOf(ks: seq<Kind>, acc: Found): Kind {
    if acc.count > 0 || ks == [] then acc.kind else ks[0]
  }

  /** Whether further members are of the one kind and keep the count within four. */
  predicate Fits(ks: seq<Kind>, acc: Found) {
    acc.count + |ks| <= 4 && forall i :: 0 <= i < |ks| ==> ks[i] == KindOf(ks, acc)
  }

  function Plus(acc: Found, ks: seq<Kind>): Found {
    Found(KindOf(ks, acc), acc.count + |ks|)
  }

  lemma FitsConcat(a: seq<Kind>, b: seq<Kind>, acc: Found)
    ensures Fits(a + b, acc) <==> Fits(a, acc) && Fits(b, Plus(acc, a))
    ensures Plus(acc, a + b) == Plus(Plus(acc, a), b)
  {
    var all := a + b;
    assert forall i :: 0 <= i < |a| ==> all[i] == a[i];
    assert forall i :: 0 <= i < |b| ==> all[|a| + i] == b[i];
  }

  lemma {:induction false} MembersAreThere(t: Type, format: LongDoubleFormat)
    requires Members(t, format).Some? && !StartsEmpty(t)
    ensures Members(t, format).value != []
    decreases t, 0
  {
    match t
    case Array(bound, e) => MembersAreThere(e, format);
    case Record(_, _, fields) => FieldsAreThere(fields, format);
    case _ =>
  }

  lemma {:induction false} FieldsAreThere(fields: seq<Field>, format: LongDoubleFormat)
    requires FieldsMembers(fields, format).Some? && !FieldsStartEmpty(fields)
    ensures FieldsMembers(fields, format).value != []
    decreases fields, 0
  {
    if fields[0].zeroSized {
      FieldsAreThere(fields[1..], format);
    } else {
      FieldIsThere(fields[0], format);
    }
  }

  lemma FieldIsThere(f: Field, format: LongDoubleFormat)
    requires FieldMembers(f, format).Some? && !FieldStartsEmpty(f)
    ensures FieldMembers(f, format).value != []
    decreases f, 1
  {
    MembersAreThere(f.ty, format);
  }

  /** What the walk accepts of some members, given what it has found before; startsEmpty only counts while it has found
      nothing. */
  predicate Accepts(ks: Option<seq<Kind>>, startsEmpty: bool, acc: Found) {
    ks.Some? && Fits(ks.value, acc) && (acc.count == 0 ==> !startsEmpty)
  }

  predicate AllZeroSized(fields: seq<Field>) {
    fields == [] || (fields[0].zeroSized && AllZeroSized(fields[1..]))
  }

  predicate AcceptsFields(fields: seq<Field>, format: LongDoubleFormat, acc: Found) {
    var ks := FieldsMembers(fields, format);
    ks.Some? && Fits(ks.value, acc) && (acc.count == 0 ==> AllZeroSized(fields) || !FieldsStartEmpty(fields))
  }

  lemma AcceptsFieldsStep(fields: seq<Field>, format: LongDoubleFormat, acc: Found)
    requires fields != [] && !fields[0].zeroSized
    ensures var ks := FieldMembers(fields[0], format);
            if Accepts(ks, FieldStartsEmpty(fields[0]), acc) && Plus(acc, ks.value).count > 0 then
              AcceptsFields(fields, format, acc) == AcceptsFields(fields[1..], format, Plus(acc, ks.value))
              && (AcceptsFields(fields, format, acc) ==>
                    Plus(acc, FieldsMembers(fields, format).value)
                    == Plus(Plus(acc, ks.value), FieldsMembers(fields[1..], format).value))
            else !Accepts(ks, FieldStartsEmpty(fields[0]), acc) ==> !AcceptsFields(fields, format, acc)
  {
    hide FieldMembers, FieldStartsEmpty, Fits, Plus;
    var ks, rest := FieldMembers(fields[0], format), FieldsMembers(fields[1..], format);
    if ks.Some? && rest.Some? {
      FitsConcat(ks.value, rest.value, acc);
    }
  }

  lemma NoFields(format: LongDoubleFormat, acc: Found)
    requires acc.count <= 4
    ensures AcceptsFields([], format, acc) && FieldsMembers([], format) == Some([]) && Plus(acc, []) == acc
  {
  }

  lemma {:induction false} ZeroSizedFields(fields: seq<Field>, format: LongDoubleFormat)
    requires AllZeroSized(fields)
    ensures FieldsMembers(fields, format) == Some([]) && FieldsStartEmpty(fields)
  {
    if fields != [] {
      ZeroSizedFields(fields[1..], format);
    }
  }

  // ---------------------------------------------------------------- the walk

  /** Adds the members of a type to what has been found. It succeeds exactly when the members exist, are of one kind and
      at most four in all, and, if they are the first, do not start with an empty record. */
  method CollectHfaMembers(t: Type, format: LongDoubleFormat, acc: Found) returns (ok: bool, found: Found)
    requires acc.count <= 4
    ensures ok == Accepts(Members(t, format), StartsEmpty(t), acc)
    ensures ok ==> found == Plus(acc, Members(t, format).value) && 1 <= found.count <= 4
    decreases t, 0
  {
    hide FieldsMembers, Repeated, FieldsStartEmpty;
    match t {
      case Builtin(k) =>
        var candidate := Normalized(k, format);
        if !IsHfaKind(candidate, format) {
          return false, acc;
        }
        found := acc;
        if acc.count == 0 {
          found := Found(candidate, acc.count);
        } else if acc.kind != candidate {
          assert Members(t, format).value[0] == candidate;
          return false, acc;
        }
        found := Found(found.kind, found.count + 1);
        return found.count <= 4, found;
      case Array(bound, e) =>
        if bound.None? || bound.value == 0 || bound.value > 4 {
          return false, acc;
        }
        ok, found := CollectElements(e, bound.value, format, acc);
      case Record(complete, isUnion, fields) =>
        if !complete || isUnion {
          return false, acc;
        }
        ok, found := CollectFields(fields, format, acc);
        if acc.count == 0 && AllZeroSized(fields) {
          ZeroSizedFields(fields, format);
        } else if acc.count == 0 && ok {
          FieldsAreThere(fields, format);
        }
        return ok && 0 < found.count <= 4, found;
      case OtherType => return false, acc;
    }
  }

  method CollectElements(e: Type, n: nat, format: LongDoubleFormat, acc: Found) returns (ok: bool, found: Found)
    requires acc.count <= 4 && n > 0
    ensures ok == Accepts(Repeated(e, n, format), StartsEmpty(e), acc)
    ensures ok ==> found == Plus(acc, Repeated(e, n, format).value) && 1 <= found.count <= 4
    decreases e, 1
  {
    hide Members, StartsEmpty, Fits, Plus;
    found := acc;
    ghost var wanted := Accepts(Repeated(e, n, format), StartsEmpty(e), acc);
    for i := 0 to n
      invariant found.count <= 4 && (i > 0 ==> found.count > 0) && (i == 0 ==> found == acc)
      invariant Accepts(Repeated(e, n - i, format), StartsEmpty(e), found) == wanted
      invariant wanted ==> Plus(found, Repeated(e, n - i, format).value) == Plus(acc, Repeated(e, n, format).value)
    {
      RepeatedStep(e, n - i, format, found);
      ok, found := CollectHfaMembers(e, format, found);
      if !ok {
        return false, found;
      }
    }
    NothingRepeated(e, format, found);
    ok := true;
  }

  lemma RepeatedStep(e: Type, n: nat, format: LongDoubleFormat, acc: Found)
    requires n > 0
    ensures var ks := Members(e, format);
            if Accepts(ks, StartsEmpty(e), acc) then
              Plus(acc, ks.value).count > 0 ==>
                Accepts(Repeated(e, n, format), StartsEmpty(e), acc) == Accepts(Repeated(e, n - 1, format), StartsEmpty(e), Plus(acc, ks.value))
                && (Accepts(Repeated(e, n, format), StartsEmpty(e), acc) ==>
                      Plus(acc, Repeated(e, n, format).value) == Plus(Plus(acc, ks.value), Repeated(e, n - 1, format).value))
            else !Accepts(Repeated(e, n, format), StartsEmpty(e), acc)
  {
    hide Members, StartsEmpty, Fits, Plus;
    var ks, rest := Members(e, format), Repeated(e, n - 1, format);
    if ks.Some? && rest.Some? {
      FitsConcat(ks.value, rest.value, acc);
    }
  }

  lemma NothingRepeated(e: Type, format: LongDoubleFormat, acc: Found)
    requires 0 < acc.count <= 4
    ensures Accepts(Repeated(e, 0, format), StartsEmpty(e), acc) && Plus(acc, Repeated(e, 0, format).value) == acc
  {
  }

  method CollectFields(fields: seq<Field>, format: LongDoubleFormat, acc: Found) returns (ok: bool, found: Found)
    requires acc.count <= 4
    ensures ok == AcceptsFields(fields, format, acc)
    ensures ok ==> found == Plus(acc, FieldsMembers(fields, format).value) && found.count <= 4
    decreases fields, 2
  {
    hide FieldMembers, FieldStartsEmpty, Fits, Plus, AcceptsFields;
    AcceptedHaveMembers(fields, format, acc);
    found := acc;
    ghost var wanted := AcceptsFields(fields, format, acc);
    assert fields[0..] == fields;
    for i := 0 to |fields|
      invariant found.count <= 4
      invariant AcceptsFields(fields[i..], format, found) == wanted
      invariant wanted ==> FieldsMembers(fields[i..], format).Some? && FieldsMembers(fields, format).Some?
      invariant wanted ==> Plus(found, FieldsMembers(fields[i..], format).value) == Plus(acc, FieldsMembers(fields, format).value)
    {
      ghost var rest := fields[i..];
      assert rest[0] == fields[i] && rest[1..] == fields[i + 1..];
      AcceptedHaveMembers(fields[i..], format, found);
      AcceptedHaveMembers(fields[i + 1..], format, found);
      if fields[i].zeroSized {
        SkipZeroSized(rest, format, found);
        continue;
      }
      AcceptsFieldsStep(rest, format, found);
      ok, found := CollectField(fields[i], format, found);
      if !ok {
        return false, found;
      }
      AcceptedHaveMembers(fields[i + 1..], format, found);
    }
    assert fields[|fields|..] == [];
    NoFields(format, found);
    ok := true;
  }

  method CollectField(f: Field, format: LongDoubleFormat, acc: Found) returns (ok: bool, found: Found)
    requires acc.count <= 4
    ensures ok == Accepts(FieldMembers(f, format), FieldStartsEmpty(f), acc)
    ensures ok ==> found == Plus(acc, FieldMembers(f, format).value) && 1 <= found.count <= 4
    decreases f, 1
  {
    hide Members, StartsEmpty, Fits, Plus;
    if f.unsuitable {
      return false, acc;
    }
    ok, found := CollectHfaMembers(f.ty, format, acc);
  }

  lemma AcceptedHaveMembers(fields: seq<Field>, format: LongDoubleFormat, acc: Found)
    ensures AcceptsFields(fields, format, acc) ==> FieldsMembers(fields, format).Some?
  {
  }

  lemma SkipZeroSized(fields: seq<Field>, format: LongDoubleFormat, acc: Found)
    requires fields != [] && fields[0].zeroSized
    ensures AcceptsFields(fields, format, acc) == AcceptsFields(fields[1..], format, acc)
    ensures FieldsMembers(fields, format) == FieldsMembers(fields[1..], format)
  {
  }

  // ---------------------------------------------------------------- the classification

  /** One to four members of one floating kind. */
  predicate IsHomogeneous(ks: Option<seq<Kind>>) {
    ks.Some? && 1 <= |ks.value| <= 4 && forall i :: 0 <= i < |ks.value| ==> ks.value[i] == ks.value[0]
  }

  /** From nothing found, the walk succeeds exactly on the homogeneous types that do not start with an empty record. */
  lemma AcceptsExactlyHomogeneous(t: Type, format: LongDoubleFormat, k: Kind)
    ensures Accepts(Members(t, format), StartsEmpty(t), Found(k, 0))
            <==> IsHomogeneous(Members(t, format)) && !StartsEmpty(t)
  {
    hide Members, StartsEmpty;
    if Members(t, format).Some? && !StartsEmpty(t) {
      MembersAreThere(t, format);
    }
  }

  datatype Pass = UseSourceType | Ignore | CoerceHfa | CoerceIntSlots | Indirect

  datatype AggregateClass = AggregateClass(pass: Pass, hfaElement: Kind, hfaCount: nat, intSlots: nat)

  /** The classification of a named argument; size is None if the layout engine knows none, ignorableEmpty says that the
      record is an empty class, and isMac selects the platform that passes nothing for one. */
  method ClassifyArgument(t: Type, format: LongDoubleFormat, size: Option<nat>, ignorableEmpty: bool, isMac: bool)
    returns (r: AggregateClass)
    ensures r.pass == UseSourceType <==> !(t.Record? && t.complete && size.Some?)
    ensures r.pass == CoerceHfa <==>
              t.Record? && t.complete && size.Some? && !(ignorableEmpty && !t.isUnion)
              && IsHomogeneous(Members(t, format)) && !StartsEmpty(t)
    ensures r.pass == CoerceHfa ==>
              r.hfaElement == Members(t, format).value[0] && r.hfaCount == |Members(t, format).value|
    ensures r.pass == Ignore <==>
              t.Record? && t.complete && size.Some? && ignorableEmpty && !t.isUnion && (isMac || size.value == 0)
    ensures r.pass == Indirect ==> size.Some? && size.value > 16
    ensures r.pass == CoerceIntSlots ==> size.Some?
    ensures r.pass == CoerceIntSlots && !(ignorableEmpty && !t.isUnion) ==> size.value <= 16
    ensures r.pass == CoerceIntSlots && ignorableEmpty && !t.isUnion ==> r.intSlots == 1
    ensures r.pass == CoerceIntSlots && !(ignorableEmpty && !t.isUnion) ==>
              8 * (r.intSlots - 1) < size.value <= 8 * r.intSlots || (size.value == 0 && r.intSlots == 1)
  {
    hide Members, StartsEmpty, Accepts;
    if !(t.Record? && t.complete) || size.None? {
      return AggregateClass(UseSourceType, NotFloating, 0, 0);
    }
    if ignorableEmpty && !t.isUnion {
      if isMac || size.value == 0 {
        return AggregateClass(Ignore, NotFloating, 0, 0);
      }
      return AggregateClass(CoerceIntSlots, NotFloating, 0, 1);
    }
    AcceptsExactlyHomogeneous(t, format, NotFloating);
    var ok, found := CollectHfaMembers(t, format, Found(NotFloating, 0));
    if ok && 0 < found.count <= 4 {
      return AggregateClass(CoerceHfa, found.kind, found.count, 0);
    }
    if size.value > 16 {
      return AggregateClass(Indirect, NotFloating, 0, 0);
    }
    return AggregateClass(CoerceIntSlots, NotFloating, 0, if size.value > 8 then (size.value + 7) / 8 else 1);
  }

  /** A record of floats whose first member is an empty record is homogeneous, but is not found to be. */
  lemma EmptyFirstMemberHidesFloats()
    ensures var empty := Record(true, false, []);
            var t := Record(true, false, [Field(false, false, empty), Field(false, false, Builtin(Float))]);
            IsHomogeneous(Members(t, IeeeQuad)) && !Accepts(Members(t, IeeeQuad), StartsEmpty(t), Found(NotFloating, 0))
            && Accepts(Members(Record(true, false, [Field(false, false, Builtin(Float)), Field(false, false, empty)]), IeeeQuad),
                       StartsEmpty(Record(true, false, [Field(false, false, Builtin(Float)), Field(false, false, empty)])),
                       Found(NotFloating, 0))
  {
    var empty := Field(false, false, Record(true, false, []));
    var float := Field(false, false, Builtin(Float));
    assert [empty, float][1..] == [float] && [float][1..] == [];
    assert [float, empty][1..] == [empty] && [empty][1..] == [];
    var noKinds: seq<Kind> := [];
    assert FieldMembers(empty, IeeeQuad) == Some(noKinds) && FieldMembers(float, IeeeQuad) == Some([Float]);
    assert noKinds + [Float] == [Float] && [Float] + noKinds == [Float] && noKinds + noKinds == noKinds;
    assert FieldsMembers([float], IeeeQuad) == Some([Float]) && FieldsMembers([empty], IeeeQuad) == Some(noKinds);
    assert FieldsMembers([empty, float], IeeeQuad) == Some([Float]);
    assert FieldsMembers([float, empty], IeeeQuad) == Some([Float]);
    assert StartsEmpty(empty.ty) && FieldStartsEmpty(empty) && !FieldStartsEmpty(float);
  }

  /** struct { float x; float y[2]; } goes in three single-precision registers, and the same with an int in it does not. */
  method ClassifyExamples() returns (floats: AggregateClass, mixed: AggregateClass)
    ensures floats.pass == CoerceHfa && floats.hfaElement == Float && floats.hfaCount == 3
    ensures mixed.pass == CoerceIntSlots && mixed.intSlots == 2
  {
    hide Members, StartsEmpty;
    var x, y := Field(false, false, Builtin(Float)), Field(false, false, Array(Some(2), Builtin(Float)));
    var i := Field(false, false, Builtin(NotFloating));
    ExampleMembers(x, y, i);
    floats := ClassifyArgument(Record(true, false, [x, y]), IeeeQuad, Some(12), false, false);
    mixed := ClassifyArgument(Record(true, false, [x, y, i]), IeeeQuad, Some(16), false, false);
  }

  lemma ExampleMembers(x: Field, y: Field, i: Field)
    requires x == Field(false, false, Builtin(Float)) && y == Field(false, false, Array(Some(2), Builtin(Float)))
    requires i == Field(false, false, Builtin(NotFloating))
    ensures Members(Record(true, false, [x, y]), IeeeQuad) == Some([Float, Float, Float]) && !StartsEmpty(Record(true, false, [x, y]))
    ensures Members(Record(true, false, [x, y, i]), IeeeQuad) == None
  {
    StartsWithFloat(x, [y]);
    hide Members, StartsEmpty;
    KindsAccepted(IeeeQuad);
    ArrayMembers(Builtin(Float), 2, IeeeQuad);
    RecordMembers(y, [], IeeeQuad);
    RecordMembers(x, [y], IeeeQuad);
    RecordMembers(i, [], IeeeQuad);
    RecordMembers(y, [i], IeeeQuad);
    RecordMembers(x, [y, i], IeeeQuad);
    assert [Float] + [Float] == [Float, Float] && [Float, Float] + [] == [Float, Float];
    assert [Float] + [Float, Float] == [Float, Float, Float];
    assert [y] + [] == [y] && [x] + [y] == [x, y] && [i] + [] == [i] && [y] + [i] == [y, i] && [x] + [y, i] == [x, y, i];
  }

  lemma StartsWithFloat(x: Field, more: seq<Field>)
    requires x == Field(false, false, Builtin(Float))
    ensures !StartsEmpty(Record(true, false, [x] + more))
  {
    var all := [x] + more;
    assert all[0] == x && !FieldStartsEmpty(x);
    assert StartsEmpty(Record(true, false, all)) == FieldsStartEmpty(all);
  }
}
