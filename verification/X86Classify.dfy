/** System V AMD64 aggregate classification: the early-exit walk over a type that merges classes into two eightbytes,
    against a reading of the same type as a set of leaves. Layout (sizes, alignments, field offsets) is given data. */
module X86Classify {
  import opened Basics

  datatype BuiltinKind = Float16 | Float | Double | LongDouble | Void | OtherBuiltin

  datatype Layout = Layout(size: nat, alignment: nat)

  /** A resolved type and what the layout engine says of it, which may be nothing. */
  datatype Type = Type(shape: Shape, layout: Option<Layout>)

  datatype Shape =
    | Builtin(kind: BuiltinKind)
    | Pointer
    | Enum
    | Complex(element: Type)
    | Array(bound: Option<nat>, element: Type)
    | Record(complete: bool, fields: seq<Field>)
    | OtherShape

  datatype Field = Field(offset: nat, flexible: bool, zeroSized: bool, bits: Option<Bits>, ty: Type)

  datatype Bits = Bits(bitOffset: nat, bitWidth: nat)

  datatype SlotClass = NoClass | Sse | Integer

  // ---------------------------------------------------------------- leaves

  /** What a part of a type contributes: a class over some bytes, or the demand to go in memory. */
  datatype Leaf = Mark(begin: nat, end: nat, cls: SlotClass) | Force

  /** The leaves of a type that starts at an offset, with no regard to what has been seen before. */
  function Leaves(t: Type, offset: nat): seq<Leaf>
    decreases t, 0
  {
    if t.layout.None? then [Force]
    else
      var size := t.layout.value.size;
      match t.shape
      case Builtin(k) =>
        if k == LongDouble then [Force]
        else if k == Void then []
        else if k == OtherBuiltin then [Mark(offset, offset + size, Integer)]
        else [Mark(offset, offset + size, Sse)]
      case Pointer => [Mark(offset, offset + size, Integer)]
      case Enum => [Mark(offset, offset + size, Integer)]
      case Complex(e) =>
        if e.layout.None? then [Force] else Leaves(e, offset) + Leaves(e, offset + e.layout.value.size)
      case Array(bound, e) =>
        if bound.None? || e.layout.None? then [Force] else ElementLeaves(e, offset, e.layout.value.size, bound.value)
      case Record(complete, fields) =>
        if !complete then [Force] else FieldsLeaves(fields, offset)
      case OtherShape => [Force]
  }

  function ElementLeaves(e: Type, offset: nat, step: nat, n: nat): seq<Leaf>
    decreases e, 1, n
  {
    if n == 0 then [] else Leaves(e, offset) + ElementLeaves(e, offset + step, step, n - 1)
  }

  function FieldsLeaves(fields: seq<Field>, offset: nat): seq<Leaf>
    decreases fields, 0
  {
    if fields == [] then [] else FieldLeaves(fields[0], offset) + FieldsLeaves(fields[1..], offset)
  }

  function BitsLeaf(begin: nat, bits: Bits): Leaf {
    var first := begin + bits.bitOffset / 8;
    var last := begin + (bits.bitOffset + bits.bitWidth + 7) / 8;
    Mark(first, first + (if last - first > 1 then last - first else 1), Integer)
  }

  function FieldLeaves(f: Field, offset: nat): seq<Leaf>
    decreases f, 1
  {
    if f.flexible || f.zeroSized then []
    else if f.bits.Some? then (if f.bits.value.bitWidth == 0 then [] else [BitsLeaf(offset + f.offset, f.bits.value)])
    else if f.ty.layout.None? || Misaligned(f, offset) then [Force]
    else Leaves(f.ty, offset + f.offset)
  }

  predicate Misaligned(f: Field, offset: nat)
    requires f.ty.layout.Some?
  {
    var a := f.ty.layout.value.alignment;
    a > 0 && (offset + f.offset) % a != 0
  }

  // ---------------------------------------------------------------- what the leaves are

  /** The leaf of each scalar: its bytes, as SSE for the floating kinds of at most eight bytes and as INTEGER otherwise;
      long double and anything unknown go in memory, and void is nothing. */
  lemma ScalarLeaves(layout: Layout, offset: nat)
    ensures var end := offset + layout.size;
            && (forall k :: k in {Float16, Float, Double} ==> Leaves(Type(Builtin(k), Some(layout)), offset) == [Mark(offset, end, Sse)])
            && Leaves(Type(Builtin(OtherBuiltin), Some(layout)), offset) == [Mark(offset, end, Integer)]
            && (forall s :: s in {Pointer, Enum} ==> Leaves(Type(s, Some(layout)), offset) == [Mark(offset, end, Integer)])
            && (forall s :: s in {Builtin(LongDouble), OtherShape} ==> Leaves(Type(s, Some(layout)), offset) == [Force])
            && Leaves(Type(Builtin(Void), Some(layout)), offset) == []
  {
  }

  /** What has no layout, and what is not complete, goes in memory. */
  lemma UnknownGoesInMemory(s: Shape, layout: Layout, fields: seq<Field>, e: Type, offset: nat)
    ensures Leaves(Type(s, None), offset) == [Force]
    ensures Leaves(Type(Record(false, fields), Some(layout)), offset) == [Force]
    ensures Leaves(Type(Array(None, e), Some(layout)), offset) == [Force]
  {
  }

  /** The leaves of an array are those of its elements, element i at i times their size. */
  lemma ArrayLeaves(e: Type, n: nat, layout: Layout, offset: nat, leaf: Leaf)
    requires e.layout.Some?
    ensures leaf in Leaves(Type(Array(Some(n), e), Some(layout)), offset)
       <==> exists i :: 0 <= i < n && ElementHas(e, offset, i, leaf)
  {
    hide Leaves;
    ElementLeavesMembers(e, offset, n, leaf);
    assert Leaves(Type(Array(Some(n), e), Some(layout)), offset) == ElementLeaves(e, offset, e.layout.value.size, n) by {
      LeavesOfArray(e, n, layout, offset);
    }
  }

  predicate ElementHas(e: Type, offset: nat, i: nat, leaf: Leaf)
    requires e.layout.Some?
  {
    leaf in Leaves(e, offset + i * e.layout.value.size)
  }

  lemma LeavesOfArray(e: Type, n: nat, layout: Layout, offset: nat)
    requires e.layout.Some?
    ensures Leaves(Type(Array(Some(n), e), Some(layout)), offset) == ElementLeaves(e, offset, e.layout.value.size, n)
  {
  }

  lemma {:induction false} ElementLeavesMembers(e: Type, offset: nat, n: nat, leaf: Leaf)
    requires e.layout.Some?
    ensures leaf in ElementLeaves(e, offset, e.layout.value.size, n) <==> exists i :: 0 <= i < n && ElementHas(e, offset, i, leaf)
    decreases n
  {
    hide Leaves;
    if n > 0 {
      var step := e.layout.value.size;
      ElementLeavesMembers(e, offset + step, n - 1, leaf);
      assert ElementHas(e, offset, 0, leaf) <==> leaf in Leaves(e, offset);
      if i :| 0 <= i < n && ElementHas(e, offset, i, leaf) {
        if i > 0 {
          assert offset + step + (i - 1) * step == offset + i * step;
          assert ElementHas(e, offset + step, i - 1, leaf);
        }
      }
      if leaf in ElementLeaves(e, offset + step, step, n - 1) {
        var i :| 0 <= i < n - 1 && ElementHas(e, offset + step, i, leaf);
        assert offset + step + i * step == offset + (i + 1) * step;
        assert ElementHas(e, offset, i + 1, leaf);
      }
    }
  }

  /** Those of a complex are those of its real and imaginary part, one behind the other. */
  lemma ComplexLeaves(e: Type, layout: Layout, offset: nat, leaf: Leaf)
    requires e.layout.Some?
    ensures leaf in Leaves(Type(Complex(e), Some(layout)), offset)
       <==> leaf in Leaves(e, offset) || leaf in Leaves(e, offset + e.layout.value.size)
  {
  }

  /** Those of a record are those of its fields; and a field has none if it is flexible or empty, one in memory if it is
      misaligned or unknown, and otherwise those of its type at its place. */
  lemma RecordLeaves(fields: seq<Field>, layout: Layout, offset: nat, leaf: Leaf)
    ensures leaf in Leaves(Type(Record(true, fields), Some(layout)), offset)
       <==> exists i :: 0 <= i < |fields| && leaf in FieldLeaves(fields[i], offset)
    ensures forall f: Field ::
              && (f.flexible || f.zeroSized ==> FieldLeaves(f, offset) == [])
              && (!f.flexible && !f.zeroSized && f.bits.None? ==>
                    FieldLeaves(f, offset) ==
                      if f.ty.layout.None? then [Force]
                      else if f.ty.layout.value.alignment > 0 && (offset + f.offset) % f.ty.layout.value.alignment != 0 then [Force]
                      else Leaves(f.ty, offset + f.offset))
  {
    FieldsLeavesMembers(fields, offset, leaf);
  }

  /** A bit-field of no width has no leaf; any other is INTEGER over exactly the bytes its bits stand in. */
  lemma BitFieldLeaves(f: Field, offset: nat)
    requires f.bits.Some? && !f.flexible && !f.zeroSized
    ensures var bits, base := f.bits.value, offset + f.offset;
            if bits.bitWidth == 0 then FieldLeaves(f, offset) == []
            else
              |FieldLeaves(f, offset)| == 1 && FieldLeaves(f, offset)[0].Mark? && FieldLeaves(f, offset)[0].cls == Integer
              && forall byte :: InLeaf(FieldLeaves(f, offset)[0], byte) <==> HoldsABit(base, bits, byte)
  {
    var bits, base := f.bits.value, offset + f.offset;
    if bits.bitWidth > 0 {
      var leaf := BitsLeaf(base, bits);
      forall byte ensures InLeaf(leaf, byte) <==> HoldsABit(base, bits, byte) {
        if InLeaf(leaf, byte) {
          var bit := if 8 * (byte - base) > bits.bitOffset then 8 * (byte - base) else bits.bitOffset;
          assert ByteOfBit(base, bit) == byte;
        }
        if bit :| bits.bitOffset <= bit < bits.bitOffset + bits.bitWidth && ByteOfBit(base, bit) == byte {
          assert bits.bitOffset / 8 <= bit / 8 <= (bits.bitOffset + bits.bitWidth - 1) / 8;
        }
      }
    }
  }

  predicate InLeaf(leaf: Leaf, byte: int)
    requires leaf.Mark?
  {
    leaf.begin <= byte < leaf.end
  }

  function ByteOfBit(base: nat, bit: nat): int {
    base + bit / 8
  }

  predicate HoldsABit(base: nat, bits: Bits, byte: int) {
    exists bit: nat :: bits.bitOffset <= bit < bits.bitOffset + bits.bitWidth && ByteOfBit(base, bit) == byte
  }

  /** A type moved without becoming misaligned has the same leaves, moved. */
  lemma {:induction false} LeavesMove(t: Type, offset: nat, dist: nat)
    requires Force !in Leaves(t, offset) && Force !in Leaves(t, offset + dist)
    ensures Leaves(t, offset + dist) == MovedLeaves(Leaves(t, offset), dist)
    decreases t, 0
  {
    if t.layout.Some? {
      match t.shape
      case Complex(e) =>
        LeavesMove(e, offset, dist);
        assert offset + dist + e.layout.value.size == offset + e.layout.value.size + dist;
        LeavesMove(e, offset + e.layout.value.size, dist);
        MovedConcat(Leaves(e, offset), Leaves(e, offset + e.layout.value.size), dist);
      case Array(bound, e) => ElementLeavesMove(e, offset, e.layout.value.size, bound.value, dist);
      case Record(_, fields) => FieldsLeavesMove(fields, offset, dist);
      case _ =>
    }
  }

  lemma {:induction false} ElementLeavesMove(e: Type, offset: nat, step: nat, n: nat, dist: nat)
    requires Force !in ElementLeaves(e, offset, step, n) && Force !in ElementLeaves(e, offset + dist, step, n)
    ensures ElementLeaves(e, offset + dist, step, n) == MovedLeaves(ElementLeaves(e, offset, step, n), dist)
    decreases e, 1, n
  {
    hide Leaves;
    if n > 0 {
      LeavesMove(e, offset, dist);
      assert offset + dist + step == offset + step + dist;
      ElementLeavesMove(e, offset + step, step, n - 1, dist);
      MovedConcat(Leaves(e, offset), ElementLeaves(e, offset + step, step, n - 1), dist);
    }
  }

  lemma {:induction false} FieldsLeavesMove(fields: seq<Field>, offset: nat, dist: nat)
    requires Force !in FieldsLeaves(fields, offset) && Force !in FieldsLeaves(fields, offset + dist)
    ensures FieldsLeaves(fields, offset + dist) == MovedLeaves(FieldsLeaves(fields, offset), dist)
    decreases fields, 0
  {
    hide FieldLeaves;
    if fields != [] {
      FieldLeavesMove(fields[0], offset, dist);
      FieldsLeavesMove(fields[1..], offset, dist);
      MovedConcat(FieldLeaves(fields[0], offset), FieldsLeaves(fields[1..], offset), dist);
    }
  }

  lemma {:induction false} FieldLeavesMove(f: Field, offset: nat, dist: nat)
    requires Force !in FieldLeaves(f, offset) && Force !in FieldLeaves(f, offset + dist)
    ensures FieldLeaves(f, offset + dist) == MovedLeaves(FieldLeaves(f, offset), dist)
    decreases f, 1
  {
    hide Leaves;
    assert offset + dist + f.offset == offset + f.offset + dist;
    if !f.flexible && !f.zeroSized && f.bits.None? {
      LeavesMove(f.ty, offset + f.offset, dist);
    }
  }

  function MovedLeaves(leaves: seq<Leaf>, dist: nat): seq<Leaf> {
    seq(|leaves|, i requires 0 <= i < |leaves| =>
      match leaves[i] case Force => Force case Mark(begin, end, cls) => Mark(begin + dist, end + dist, cls))
  }

  lemma MovedConcat(a: seq<Leaf>, b: seq<Leaf>, dist: nat)
    ensures MovedLeaves(a + b, dist) == MovedLeaves(a, dist) + MovedLeaves(b, dist)
  {
  }

  // ---------------------------------------------------------------- merging

  datatype Outcome = InMemory | InSlots(first: SlotClass, second: SlotClass)

  function Merge(slot: SlotClass, cls: SlotClass): SlotClass {
    if cls == Integer then Integer else if slot == NoClass then cls else slot
  }

  predicate Overlaps(leaf: Leaf, slot: nat) {
    leaf.Mark? && leaf.begin < 8 * slot + 8 && leaf.end > 8 * slot
  }

  predicate OverlapsAs(leaf: Leaf, slot: nat, cls: SlotClass) {
    Overlaps(leaf, slot) && leaf.cls == cls
  }

  /** A leaf overlaps an eightbyte exactly if one of its bytes is in it. */
  lemma OverlapIsASharedByte(leaf: Leaf, slot: nat)
    requires leaf.Mark? && leaf.begin < leaf.end
    ensures Overlaps(leaf, slot) <==> exists byte :: leaf.begin <= byte < leaf.end && byte / 8 == slot
  {
    if Overlaps(leaf, slot) {
      var byte := if leaf.begin > 8 * slot then leaf.begin else 8 * slot;
      assert byte / 8 == slot;
    }
  }

  function Step(o: Outcome, leaf: Leaf): Outcome {
    if o.InMemory? || leaf.Force? then InMemory
    else InSlots(if Overlaps(leaf, 0) then Merge(o.first, leaf.cls) else o.first,
                 if Overlaps(leaf, 1) then Merge(o.second, leaf.cls) else o.second)
  }

  function After(o: Outcome, leaves: seq<Leaf>): Outcome
    decreases leaves
  {
    if leaves == [] then o else After(Step(o, leaves[0]), leaves[1..])
  }

  lemma {:induction false} AfterConcat(o: Outcome, a: seq<Leaf>, b: seq<Leaf>)
    ensures After(o, a + b) == After(After(o, a), b)
    decreases a
  {
    if a == [] {
      assert a + b == b;
    } else {
      assert (a + b)[1..] == a[1..] + b;
      AfterConcat(Step(o, a[0]), a[1..], b);
    }
  }

  lemma {:induction false} MemoryIsFinal(leaves: seq<Leaf>)
    ensures After(InMemory, leaves) == InMemory
  {
    if leaves != [] {
      MemoryIsFinal(leaves[1..]);
    }
  }

  lemma AfterOne(o: Outcome, leaf: Leaf)
    ensures After(o, [leaf]) == Step(o, leaf)
  {
    assert [leaf][1..] == [];
  }

  /** The class of an eightbyte as the ABI words it: INTEGER if an integer leaf overlaps it, otherwise SSE if an SSE leaf
      does. */
  ghost function SlotOf(leaves: seq<Leaf>, slot: nat): SlotClass {
    if exists i :: 0 <= i < |leaves| && OverlapsAs(leaves[i], slot, Integer) then Integer
    else if exists i :: 0 <= i < |leaves| && OverlapsAs(leaves[i], slot, Sse) then Sse
    else NoClass
  }

  lemma SlotOfSnoc(leaves: seq<Leaf>, leaf: Leaf, slot: nat)
    ensures SlotOf(leaves + [leaf], slot) == if Overlaps(leaf, slot) then Merge(SlotOf(leaves, slot), leaf.cls) else SlotOf(leaves, slot)
  {
    var all := leaves + [leaf];
    assert all[|leaves|] == leaf;
    if i :| 0 <= i < |leaves| && OverlapsAs(leaves[i], slot, Integer) {
      assert all[i] == leaves[i];
    }
    if i :| 0 <= i < |leaves| && OverlapsAs(leaves[i], slot, Sse) {
      assert all[i] == leaves[i];
    }
    forall i | 0 <= i < |leaves| ensures all[i] == leaves[i] {
    }
  }

  /** Merging leaf by leaf, with its early exits, is the ABI's rule over the set of leaves. */
  lemma {:induction false} MergingIsTheRule(leaves: seq<Leaf>)
    ensures After(InSlots(NoClass, NoClass), leaves) ==
            if Force in leaves then InMemory else InSlots(SlotOf(leaves, 0), SlotOf(leaves, 1))
  {
    if leaves != [] {
      hide SlotOf, Overlaps, Merge;
      var init, leaf := leaves[..|leaves| - 1], leaves[|leaves| - 1];
      assert leaves == init + [leaf];
      MergingIsTheRule(init);
      AfterConcat(InSlots(NoClass, NoClass), init, [leaf]);
      AfterOne(After(InSlots(NoClass, NoClass), init), leaf);
      SlotOfSnoc(init, leaf, 0);
      SlotOfSnoc(init, leaf, 1);
    } else {
      assert SlotOf([], 0) == NoClass && SlotOf([], 1) == NoClass;
    }
  }

  /** So only the set of leaves matters: not their order, not their nesting, not repetitions. */
  lemma OnlyTheSetMatters(a: seq<Leaf>, b: seq<Leaf>)
    requires forall leaf :: leaf in a <==> leaf in b
    ensures After(InSlots(NoClass, NoClass), a) == After(InSlots(NoClass, NoClass), b)
  {
    hide Overlaps, After;
    MergingIsTheRule(a);
    MergingIsTheRule(b);
    SlotOfSubset(a, b, 0);
    SlotOfSubset(b, a, 0);
    SlotOfSubset(a, b, 1);
    SlotOfSubset(b, a, 1);
  }

  function Rank(c: SlotClass): nat {
    match c case NoClass => 0 case Sse => 1 case Integer => 2
  }

  lemma SlotOfSubset(a: seq<Leaf>, b: seq<Leaf>, slot: nat)
    requires forall leaf :: leaf in a ==> leaf in b
    ensures Rank(SlotOf(a, slot)) <= Rank(SlotOf(b, slot))
  {
    hide Overlaps;
    if i :| 0 <= i < |a| && OverlapsAs(a[i], slot, Integer) {
      assert a[i] in b;
    }
    if i :| 0 <= i < |a| && OverlapsAs(a[i], slot, Sse) {
      assert a[i] in b;
    }
  }

  // ---------------------------------------------------------------- reordering and flattening

  lemma {:induction false} FieldsLeavesMembers(fields: seq<Field>, offset: nat, leaf: Leaf)
    ensures leaf in FieldsLeaves(fields, offset) <==> exists i :: 0 <= i < |fields| && leaf in FieldLeaves(fields[i], offset)
  {
    hide FieldLeaves;
    if fields != [] {
      FieldsLeavesMembers(fields[1..], offset, leaf);
      if i :| 0 <= i < |fields| && leaf in FieldLeaves(fields[i], offset) {
        if i > 0 {
          assert fields[1..][i - 1] == fields[i];
        }
      }
      if leaf in FieldsLeaves(fields[1..], offset) {
        var i :| 0 <= i < |fields[1..]| && leaf in FieldLeaves(fields[1..][i], offset);
        assert fields[i + 1] == fields[1..][i];
      }
    }
  }

  /** A record with its fields in another order is classified alike. */
  lemma FieldOrderIsIrrelevant(a: seq<Field>, b: seq<Field>, layout: Layout, offset: nat)
    requires forall f :: f in a <==> f in b
    ensures After(InSlots(NoClass, NoClass), Leaves(Type(Record(true, a), Some(layout)), offset))
         == After(InSlots(NoClass, NoClass), Leaves(Type(Record(true, b), Some(layout)), offset))
  {
    hide FieldLeaves, After, FieldsLeaves;
    forall leaf ensures leaf in FieldsLeaves(a, offset) <==> leaf in FieldsLeaves(b, offset) {
      FieldsLeavesMembers(a, offset, leaf);
      FieldsLeavesMembers(b, offset, leaf);
      if i :| 0 <= i < |a| && leaf in FieldLeaves(a[i], offset) {
        assert a[i] in b;
      }
      if i :| 0 <= i < |b| && leaf in FieldLeaves(b[i], offset) {
        assert b[i] in a;
      }
    }
    OnlyTheSetMatters(FieldsLeaves(a, offset), FieldsLeaves(b, offset));
  }

  function Shifted(f: Field, shift: nat): Field {
    f.(offset := f.offset + shift)
  }

  function ShiftedAll(fields: seq<Field>, shift: nat): seq<Field> {
    if fields == [] then [] else [Shifted(fields[0], shift)] + ShiftedAll(fields[1..], shift)
  }

  lemma ShiftedLeaves(f: Field, offset: nat, shift: nat)
    ensures FieldLeaves(Shifted(f, shift), offset) == FieldLeaves(f, offset + shift)
  {
    assert offset + (f.offset + shift) == offset + shift + f.offset;
  }

  lemma {:induction false} ShiftedFieldsLeaves(fields: seq<Field>, offset: nat, shift: nat)
    ensures FieldsLeaves(ShiftedAll(fields, shift), offset) == FieldsLeaves(fields, offset + shift)
  {
    hide FieldLeaves;
    if fields != [] {
      ShiftedFieldsLeaves(fields[1..], offset, shift);
      ShiftedLeaves(fields[0], offset, shift);
    }
  }

  lemma {:induction false} FieldsLeavesConcat(a: seq<Field>, b: seq<Field>, offset: nat)
    ensures FieldsLeaves(a + b, offset) == FieldsLeaves(a, offset) + FieldsLeaves(b, offset)
  {
    hide FieldLeaves;
    if a == [] {
      assert a + b == b;
    } else {
      assert (a + b)[1..] == a[1..] + b;
      FieldsLeavesConcat(a[1..], b, offset);
    }
  }

  /** A field of complete record type can be replaced by that record's own fields, moved to where they are, if it is
      aligned; the leaves, and with them the class, stay the same. */
  lemma FlatteningIsIrrelevant(before: seq<Field>, f: Field, after: seq<Field>, offset: nat)
    requires f.ty.shape.Record? && f.ty.shape.complete && f.ty.layout.Some? && !Misaligned(f, offset)
    requires !f.flexible && !f.zeroSized && f.bits.None?
    ensures FieldsLeaves(before + [f] + after, offset)
         == FieldsLeaves(before + ShiftedAll(f.ty.shape.fields, f.offset) + after, offset)
  {
    hide FieldsLeaves, Misaligned;
    FieldsLeavesConcat(before + [f], after, offset);
    FieldsLeavesConcat(before, [f], offset);
    var inner := ShiftedAll(f.ty.shape.fields, f.offset);
    FieldsLeavesConcat(before + inner, after, offset);
    FieldsLeavesConcat(before, inner, offset);
    ShiftedFieldsLeaves(f.ty.shape.fields, offset, f.offset);
    OneField(f, offset);
  }

  lemma OneField(f: Field, offset: nat)
    ensures FieldsLeaves([f], offset) == FieldLeaves(f, offset)
  {
    hide FieldLeaves;
    assert [f][1..] == [];
    assert FieldsLeaves([f][1..], offset) == [];
  }

  // ---------------------------------------------------------------- the walk

  /** The accumulator that the recursive walk updates. */
  class ClassifyState {
    var slots: (SlotClass, SlotClass)
    var memory: bool

    constructor ()
      ensures View() == InSlots(NoClass, NoClass)
    {
      slots, memory := (NoClass, NoClass), false;
    }

    /** Once memory is demanded the slots no longer matter. */
    function View(): Outcome
      reads this
    {
      if memory then InMemory else InSlots(slots.0, slots.1)
    }

    method MarkBytes(offset: nat, size: nat, cls: SlotClass)
      modifies this
      ensures View() == Step(old(View()), Mark(offset, offset + size, cls))
    {
      var end := offset + size;
      if offset < 8 && end > 0 {
        slots := (Merge(slots.0, cls), slots.1);
      }
      if offset < 16 && end > 8 {
        slots := (slots.0, Merge(slots.1, cls));
      }
    }

    method ClassifyBytes(t: Type, offset: nat)
      modifies this
      ensures View() == After(old(View()), Leaves(t, offset))
      decreases t, 0
    {
      hide Step, FieldsLeaves, FieldLeaves, ElementLeaves, After;
      ghost var o := View();
      ghost var leaves := Leaves(t, offset);
      if leaves != [] {
        AfterOne(o, leaves[0]);
      }
      if memory {
        MemoryIsFinal(leaves);
        return;
      }
      StepToMemory(o);
      if t.layout.None? {
        memory := true;
        return;
      }
      var size := t.layout.value.size;
      match t.shape {
        case Builtin(k) =>
          if k == Float16 || k == Float || k == Double {
            MarkBytes(offset, size, Sse);
          } else if k == LongDouble {
            memory := true;
          } else if k == Void {
            NoLeaves(o);
          } else {
            MarkBytes(offset, size, Integer);
          }
        case Pointer => MarkBytes(offset, size, Integer);
        case Enum => MarkBytes(offset, size, Integer);
        case Complex(e) =>
          if e.layout.None? {
            memory := true;
          } else {
            AfterConcat(o, Leaves(e, offset), Leaves(e, offset + e.layout.value.size));
            ClassifyBytes(e, offset);
            ClassifyBytes(e, offset + e.layout.value.size);
          }
        case Array(bound, e) =>
          if bound.None? || e.layout.None? {
            memory := true;
          } else {
            ClassifyElements(e, offset, bound.value);
          }
        case Record(complete, fields) =>
          if complete {
            ClassifyFields(fields, offset);
          } else {
            memory := true;
          }
        case OtherShape => memory := true;
      }
    }

    method ClassifyElements(e: Type, offset: nat, n: nat)
      requires e.layout.Some?
      modifies this
      ensures View() == After(old(View()), ElementLeaves(e, offset, e.layout.value.size, n))
      decreases e, 1
    {
      hide Step, After, Leaves;
      var step := e.layout.value.size;
      ghost var whole := After(View(), ElementLeaves(e, offset, step, n));
      var i := 0;
      while i < n && !memory
        invariant 0 <= i <= n
        invariant After(View(), ElementLeaves(e, offset + i * step, step, n - i)) == whole
        decreases n - i
      {
        ghost var o := View();
        var at := offset + i * step;
        assert at + step == offset + (i + 1) * step;
        AfterConcat(o, Leaves(e, at), ElementLeaves(e, at + step, step, n - i - 1));
        ClassifyBytes(e, at);
        i := i + 1;
      }
      if memory {
        MemoryIsFinal(ElementLeaves(e, offset + i * step, step, n - i));
      } else {
        NoLeaves(View());
      }
    }

    method ClassifyFields(fields: seq<Field>, offset: nat)
      modifies this
      ensures View() == After(old(View()), FieldsLeaves(fields, offset))
      decreases fields, 2
    {
      hide Step, After, FieldLeaves;
      ghost var whole := After(View(), FieldsLeaves(fields, offset));
      assert fields[0..] == fields;
      for i := 0 to |fields|
        invariant After(View(), FieldsLeaves(fields[i..], offset)) == whole
      {
        if memory {
          MemoryIsFinal(FieldsLeaves(fields[i..], offset));
          return;
        }
        assert fields[i..][0] == fields[i] && fields[i..][1..] == fields[i + 1..];
        AfterConcat(View(), FieldLeaves(fields[i], offset), FieldsLeaves(fields[i + 1..], offset));
        ClassifyField(fields[i], offset);
      }
      assert fields[|fields|..] == [];
      NoLeaves(View());
    }

    method ClassifyField(f: Field, offset: nat)
      requires !memory
      modifies this
      ensures View() == After(old(View()), FieldLeaves(f, offset))
      decreases f, 1
    {
      hide Step, After, Leaves;
      ghost var o := View();
      NoLeaves(o);
      StepToMemory(o);
      AfterOne(o, Force);
      if f.flexible || f.zeroSized {
        return;
      }
      var fieldOffset := offset + f.offset;
      if f.bits.Some? {
        var bits := f.bits.value;
        if bits.bitWidth == 0 {
          return;
        }
        var first := fieldOffset + bits.bitOffset / 8;
        var last := fieldOffset + (bits.bitOffset + bits.bitWidth + 7) / 8;
        AfterOne(o, BitsLeaf(fieldOffset, bits));
        MarkBytes(first, if last - first > 1 then last - first else 1, Integer);
        return;
      }
      if f.ty.layout.None? {
        memory := true;
        return;
      }
      if f.ty.layout.value.alignment > 0 && fieldOffset % f.ty.layout.value.alignment != 0 {
        memory := true;
        return;
      }
      ClassifyBytes(f.ty, fieldOffset);
    }
  }

  lemma NoLeaves(o: Outcome)
    ensures After(o, []) == o
  {
  }

  lemma StepToMemory(o: Outcome)
    ensures Step(o, Force) == InMemory
  {
  }

  // ---------------------------------------------------------------- the result

  datatype Pass = UseSourceType | MemoryByval | Ignore | CoerceIntSlots | CoerceClassedSlots

  datatype AggregateClass = AggregateClass(pass: Pass, byteSize: nat, byteAlign: nat, slotCount: nat, sseMask: nat)

  function SlotCount(size: nat): nat {
    if size <= 8 then 1 else (size + 7) / 8
  }

  /** Turns an accumulator into a result. */
  method FromState(state: ClassifyState, size: nat, alignment: nat) returns (r: AggregateClass)
    ensures r.byteSize == size && r.byteAlign == (if alignment > 1 then alignment else 1)
    ensures r == ResultOf(state.View(), size, alignment)
  {
    var align := if alignment > 1 then alignment else 1;
    if state.memory || size > 16 {
      return AggregateClass(MemoryByval, size, align, 0, 0);
    }
    var slotCount := if (size + 7) / 8 > 1 then (size + 7) / 8 else 1;
    var anyMarked, mask, bit := false, 0, 1;
    for slot := 0 to slotCount
      invariant bit == if slot == 0 then 1 else if slot == 1 then 2 else 4
      invariant anyMarked == ((slot > 0 && state.slots.0 != NoClass) || (slot > 1 && state.slots.1 != NoClass))
      invariant mask == (if slot > 0 && state.slots.0 == Sse then 1 else 0) + (if slot > 1 && state.slots.1 == Sse then 2 else 0)
    {
      var cls := if slot == 0 then state.slots.0 else state.slots.1;
      if cls != NoClass {
        anyMarked := true;
      }
      if cls == Sse {
        mask := mask + bit;
      }
      bit := bit * 2;
    }
    if !anyMarked {
      return AggregateClass(Ignore, size, align, 0, 0);
    }
    return AggregateClass(if mask == 0 then CoerceIntSlots else CoerceClassedSlots, size, align, slotCount, mask);
  }

  function ResultOf(o: Outcome, size: nat, alignment: nat): AggregateClass {
    var align := if alignment > 1 then alignment else 1;
    if o.InMemory? || size > 16 then AggregateClass(MemoryByval, size, align, 0, 0)
    else
      var second := if SlotCount(size) == 2 then o.second else NoClass;
      var mask := (if o.first == Sse then 1 else 0) + (if second == Sse then 2 else 0);
      if o.first == NoClass && second == NoClass then AggregateClass(Ignore, size, align, 0, 0)
      else AggregateClass(if mask == 0 then CoerceIntSlots else CoerceClassedSlots, size, align, SlotCount(size), mask)
  }

  /** A laid-out type's class, as the ABI describes it over the leaves. */
  ghost predicate IsClassOf(r: AggregateClass, leaves: seq<Leaf>, size: nat) {
    && (r.pass == MemoryByval <==> size > 16 || Force in leaves)
    && (r.pass == Ignore <==> size <= 16 && Force !in leaves && forall slot :: 0 <= slot < SlotCount(size) ==> SlotOf(leaves, slot) == NoClass)
    && (r.pass == CoerceIntSlots || r.pass == CoerceClassedSlots ==>
          && r.slotCount == SlotCount(size)
          && r.sseMask == (if SlotOf(leaves, 0) == Sse then 1 else 0)
                          + (if SlotCount(size) == 2 && SlotOf(leaves, 1) == Sse then 2 else 0))
    && (r.pass == CoerceIntSlots ==> r.sseMask == 0)
    && (r.pass == CoerceClassedSlots ==> r.sseMask != 0)
  }

  lemma ResultIsTheClass(leaves: seq<Leaf>, size: nat, alignment: nat)
    ensures var r := ResultOf(After(InSlots(NoClass, NoClass), leaves), size, alignment);
            && IsClassOf(r, leaves, size)
            && (r.pass == CoerceIntSlots || r.pass == CoerceClassedSlots ==> r.slotCount == if r.byteSize <= 8 then 1 else 2)
            && (r.pass == MemoryByval || r.pass == Ignore ==> r.slotCount == 0 && r.sseMask == 0)
  {
    hide SlotOf, After;
    MergingIsTheRule(leaves);
  }

  predicate IsAggregate(t: Type) {
    t.layout.Some? && (t.shape.Complex? || (t.shape.Record? && t.shape.complete))
  }

  /** The whole classification. Only complex types and complete records with a layout are classified at all. */
  method ClassifyArgument(t: Type) returns (r: AggregateClass)
    ensures r.pass == UseSourceType <==> !IsAggregate(t)
    ensures IsAggregate(t) ==> IsClassOf(r, Leaves(t, 0), t.layout.value.size)
    ensures IsAggregate(t) ==> r.byteSize == t.layout.value.size
                               && r.byteAlign == if t.layout.value.alignment > 1 then t.layout.value.alignment else 1
    ensures r.pass == CoerceIntSlots || r.pass == CoerceClassedSlots ==> r.slotCount == if r.byteSize <= 8 then 1 else 2
    ensures r.pass == MemoryByval || r.pass == Ignore ==> r.slotCount == 0 && r.sseMask == 0
  {
    hide Leaves, After, IsClassOf, SlotCount;
    if !IsAggregate(t) {
      return AggregateClass(UseSourceType, 0, 1, 0, 0);
    }
    var state := new ClassifyState();
    state.ClassifyBytes(t, 0);
    r := FromState(state, t.layout.value.size, t.layout.value.alignment);
    ResultIsTheClass(Leaves(t, 0), t.layout.value.size, t.layout.value.alignment);
  }

  // ---------------------------------------------------------------- worked examples

  function Scalar(kind: BuiltinKind, size: nat): Type {
    Type(Builtin(kind), Some(Layout(size, size)))
  }

  function Member(offset: nat, ty: Type): Field {
    Field(offset, false, false, None, ty)
  }

  function StructOf(fields: seq<Field>, size: nat, alignment: nat): Type {
    Type(Record(true, fields), Some(Layout(size, alignment)))
  }

  /** struct { double a[2]; } */
  function TwoDoubles(): Type {
    StructOf([Member(0, Type(Array(Some(2), Scalar(Double, 8)), Some(Layout(16, 8))))], 16, 8)
  }

  /** struct { int a; float b; double c; } */
  function Mixed(): Type {
    StructOf([Member(0, Scalar(OtherBuiltin, 4)), Member(4, Scalar(Float, 4)), Member(8, Scalar(Double, 8))], 16, 8)
  }

  lemma ExampleLeaves()
    ensures Leaves(TwoDoubles(), 0) == [Mark(0, 8, Sse), Mark(8, 16, Sse)]
    ensures Leaves(Mixed(), 0) == [Mark(0, 4, Integer), Mark(4, 8, Sse), Mark(8, 16, Sse)]
  {
    var d := Scalar(Double, 8);
    assert ElementLeaves(d, 8, 8, 1) == Leaves(d, 8) + ElementLeaves(d, 16, 8, 0) == [Mark(8, 16, Sse)];
    assert ElementLeaves(d, 0, 8, 2) == [Mark(0, 8, Sse)] + [Mark(8, 16, Sse)];
    OneField(TwoDoubles().shape.fields[0], 0);
    var fields := Mixed().shape.fields;
    var a, b, c := fields[0], fields[1], fields[2];
    assert fields[1..] == [b, c] && [b, c][1..] == [c];
    OneField(c, 0);
  }

  lemma ExampleSlots(leaves: seq<Leaf>)
    ensures leaves == [Mark(0, 8, Sse), Mark(8, 16, Sse)] ==> SlotOf(leaves, 0) == Sse && SlotOf(leaves, 1) == Sse
    ensures leaves == [Mark(0, 4, Integer), Mark(4, 8, Sse), Mark(8, 16, Sse)] ==> SlotOf(leaves, 0) == Integer && SlotOf(leaves, 1) == Sse
  {
    if leaves == [Mark(0, 8, Sse), Mark(8, 16, Sse)] {
      assert OverlapsAs(leaves[0], 0, Sse) && OverlapsAs(leaves[1], 1, Sse);
    } else if leaves == [Mark(0, 4, Integer), Mark(4, 8, Sse), Mark(8, 16, Sse)] {
      assert OverlapsAs(leaves[0], 0, Integer) && OverlapsAs(leaves[2], 1, Sse);
    }
  }

  /** Two doubles go in two SSE slots; an int and a float in an INTEGER slot and a double in an SSE slot. */
  method ClassifyExamples() returns (doubles: AggregateClass, mixed: AggregateClass)
    ensures doubles == AggregateClass(CoerceClassedSlots, 16, 8, 2, 3)
    ensures mixed == AggregateClass(CoerceClassedSlots, 16, 8, 2, 2)
  {
    hide Leaves, SlotOf;
    ExampleLeaves();
    ExampleSlots(Leaves(TwoDoubles(), 0));
    ExampleSlots(Leaves(Mixed(), 0));
    doubles := ClassifyArgument(TwoDoubles());
    mixed := ClassifyArgument(Mixed());
  }
}
