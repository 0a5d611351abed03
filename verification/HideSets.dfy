/** Hash-consed hide sets: an id stands for a set of macro names, and every
    distinct set has exactly one id, so set equality is id equality. */
module HideSets {

  /** Identifier numbers and hide-set ids; 0 is "no identifier" and the empty set. The number of ids is not bounded. */
  type Ident = nat
  type HideSetId = nat

  // ---------------------------------------------------------------- sorted vectors

  ghost predicate StrictlySorted(s: seq<Ident>) {
    |s| <= 1 || (s[0] < s[1] && StrictlySorted(s[1..]))
  }

  lemma {:induction false} SortedByIndex(s: seq<Ident>)
    requires StrictlySorted(s)
    ensures forall i, j :: 0 <= i < j < |s| ==> s[i] < s[j]
  {
    if |s| > 1 {
      SortedByIndex(s[1..]);
      forall i, j | 0 <= i < j < |s| ensures s[i] < s[j] {
        assert s[j] == s[1..][j - 1];
        if i > 0 {
          assert s[i] == s[1..][i - 1];
        }
      }
    }
  }

  ghost function Elems(s: seq<Ident>): set<Ident> {
    set x | x in s
  }

  /** A strictly sorted vector is determined by the set of its elements. */
  lemma {:induction false} SortedVectorsAreCanonical(a: seq<Ident>, b: seq<Ident>)
    requires StrictlySorted(a) && StrictlySorted(b)
    requires Elems(a) == Elems(b)
    ensures a == b
  {
    assert a != [] ==> a[0] in Elems(a);
    assert b != [] ==> b[0] in Elems(b);
    if a != [] {
      SortedByIndex(a);
      SortedByIndex(b);
      assert a[0] in b && b[0] in a;
      assert a[0] == b[0];
      TailElems(a);
      TailElems(b);
      SortedVectorsAreCanonical(a[1..], b[1..]);
      assert a == [a[0]] + a[1..] && b == [b[0]] + b[1..];
    }
  }

  lemma TailElems(a: seq<Ident>)
    requires a != [] && StrictlySorted(a)
    ensures StrictlySorted(a[1..])
    ensures Elems(a) == {a[0]} + Elems(a[1..])
    ensures forall y :: y in Elems(a[1..]) ==> a[0] < y
  {
    SortedByIndex(a);
    assert a == [a[0]] + a[1..];
  }

  lemma ConsElems(x: Ident, rest: seq<Ident>)
    requires StrictlySorted(rest) && forall y :: y in Elems(rest) ==> x < y
    ensures StrictlySorted([x] + rest)
    ensures Elems([x] + rest) == {x} + Elems(rest)
  {
    assert rest != [] ==> rest[0] in Elems(rest);
    assert ([x] + rest)[1..] == rest;
  }

  /** std::set_union on sorted ranges. */
  function SetUnion(a: seq<Ident>, b: seq<Ident>): seq<Ident>
    decreases |a| + |b|
  {
    if a == [] then b
    else if b == [] then a
    else if a[0] < b[0] then [a[0]] + SetUnion(a[1..], b)
    else if b[0] < a[0] then [b[0]] + SetUnion(a, b[1..])
    else [a[0]] + SetUnion(a[1..], b[1..])
  }

  /** std::set_intersection on sorted ranges. */
  function SetIntersection(a: seq<Ident>, b: seq<Ident>): seq<Ident>
    decreases |a| + |b|
  {
    if a == [] || b == [] then []
    else if a[0] < b[0] then SetIntersection(a[1..], b)
    else if b[0] < a[0] then SetIntersection(a, b[1..])
    else [a[0]] + SetIntersection(a[1..], b[1..])
  }

  /** Insertion at the lower bound, dropping a duplicate. */
  function SetInsert(a: seq<Ident>, x: Ident): seq<Ident> {
    if a == [] then [x]
    else if a[0] < x then [a[0]] + SetInsert(a[1..], x)
    else if a[0] == x then a
    else [x] + a
  }

  lemma LeastInFront(x: Ident, rest: seq<Ident>, s: set<Ident>, t: set<Ident>)
    requires StrictlySorted(rest) && Elems(rest) == s + t
    requires (forall y :: y in s ==> x < y) && (forall y :: y in t ==> x < y)
    ensures StrictlySorted([x] + rest)
    ensures Elems([x] + rest) == {x} + s + t
  {
    ConsElems(x, rest);
  }

  /** The merge of two sorted vectors is the sorted vector of the union. */
  lemma {:induction false} SetUnionIsExact(a: seq<Ident>, b: seq<Ident>)
    requires StrictlySorted(a) && StrictlySorted(b)
    ensures StrictlySorted(SetUnion(a, b))
    ensures Elems(SetUnion(a, b)) == Elems(a) + Elems(b)
    decreases |a| + |b|
  {
    if a != [] && b != [] {
      TailElems(a);
      TailElems(b);
      if a[0] < b[0] {
        SetUnionIsExact(a[1..], b);
        LeastInFront(a[0], SetUnion(a[1..], b), Elems(a[1..]), Elems(b));
      } else if b[0] < a[0] {
        SetUnionIsExact(a, b[1..]);
        LeastInFront(b[0], SetUnion(a, b[1..]), Elems(a), Elems(b[1..]));
      } else {
        SetUnionIsExact(a[1..], b[1..]);
        LeastInFront(a[0], SetUnion(a[1..], b[1..]), Elems(a[1..]), Elems(b[1..]));
      }
    }
  }

  /** The common elements of two sorted vectors, as the sorted vector of the intersection. */
  lemma {:induction false} SetIntersectionIsExact(a: seq<Ident>, b: seq<Ident>)
    requires StrictlySorted(a) && StrictlySorted(b)
    ensures StrictlySorted(SetIntersection(a, b))
    ensures Elems(SetIntersection(a, b)) == Elems(a) * Elems(b)
    decreases |a| + |b|
  {
    if a != [] && b != [] {
      TailElems(a);
      TailElems(b);
      if a[0] < b[0] {
        SetIntersectionIsExact(a[1..], b);
      } else if b[0] < a[0] {
        SetIntersectionIsExact(a, b[1..]);
      } else {
        SetIntersectionIsExact(a[1..], b[1..]);
        ConsElems(a[0], SetIntersection(a[1..], b[1..]));
      }
    }
  }

  lemma {:induction false} SetInsertIsExact(a: seq<Ident>, x: Ident)
    requires StrictlySorted(a)
    ensures StrictlySorted(SetInsert(a, x))
    ensures Elems(SetInsert(a, x)) == Elems(a) + {x}
  {
    if a != [] {
      TailElems(a);
      if a[0] < x {
        SetInsertIsExact(a[1..], x);
        LeastInFront(a[0], SetInsert(a[1..], x), Elems(a[1..]), {x});
      } else if x < a[0] {
        ConsElems(x, a);
      }
    }
  }

  method LowerBound(a: seq<Ident>, x: Ident) returns (pos: nat)
    requires StrictlySorted(a)
    ensures pos <= |a|
    ensures forall i :: 0 <= i < pos ==> a[i] < x
    ensures forall i :: pos <= i < |a| ==> x <= a[i]
  {
    SortedByIndex(a);
    var lo, hi := 0, |a|;
    while lo < hi
      invariant 0 <= lo <= hi <= |a|
      invariant forall i :: 0 <= i < lo ==> a[i] < x
      invariant forall i :: hi <= i < |a| ==> x <= a[i]
    {
      var mid := (lo + hi) / 2;
      if a[mid] < x { lo := mid + 1; } else { hi := mid; }
    }
    pos := lo;
  }

  // ---------------------------------------------------------------- the table as a value

  ghost predicate SameVector(sets: seq<seq<Ident>>, i: nat, j: nat)
    requires i < |sets| && j < |sets|
  {
    sets[i] == sets[j]
  }

  /** The stored vectors: all strictly sorted, none empty, no two equal. */
  ghost predicate WellFormed(sets: seq<seq<Ident>>) {
    && (forall i :: 0 <= i < |sets| ==> StrictlySorted(sets[i]) && sets[i] != [])
    && (forall i, j :: 0 <= i < |sets| && 0 <= j < |sets| && SameVector(sets, i, j) ==> i == j)
  }

  ghost predicate IsId(sets: seq<seq<Ident>>, id: HideSetId) {
    id <= |sets|
  }

  /** The sorted vector behind an id. */
  function Vector(sets: seq<seq<Ident>>, id: HideSetId): seq<Ident>
    requires IsId(sets, id)
  {
    if id == 0 then [] else sets[id - 1]
  }

  /** The set of names an id stands for. */
  ghost function Denote(sets: seq<seq<Ident>>, id: HideSetId): set<Ident>
    requires IsId(sets, id)
  {
    Elems(Vector(sets, id))
  }

  /** Two ids are equal exactly when they stand for equal sets. */
  lemma IdsAreCanonical(sets: seq<seq<Ident>>, a: HideSetId, b: HideSetId)
    requires WellFormed(sets) && IsId(sets, a) && IsId(sets, b)
    ensures a == b <==> Denote(sets, a) == Denote(sets, b)
  {
    if Denote(sets, a) == Denote(sets, b) {
      SortedVectorsAreCanonical(Vector(sets, a), Vector(sets, b));
      assert a != 0 && b != 0 ==> SameVector(sets, a - 1, b - 1);
    }
  }

  /** The table and id after interning a vector. */
  ghost function Intern(sets: seq<seq<Ident>>, v: seq<Ident>): (seq<seq<Ident>>, HideSetId)
    requires WellFormed(sets)
  {
    if v == [] then (sets, 0)
    else if v in sets then
      var i: nat :| i < |sets| && sets[i] == v;
      (sets, i + 1)
    else (sets + [v], |sets| + 1)
  }

  datatype Op =
    | Insert(set_: HideSetId, name: Ident)
    | Union(lhs: HideSetId, rhs: HideSetId)
    | Intersect(lhs: HideSetId, rhs: HideSetId)

  ghost predicate OpOn(sets: seq<seq<Ident>>, op: Op) {
    match op
    case Insert(s, x) => IsId(sets, s)
    case Union(a, b) => IsId(sets, a) && IsId(sets, b)
    case Intersect(a, b) => IsId(sets, a) && IsId(sets, b)
  }

  /** What an operation means on sets of names. */
  ghost function Meaning(sets: seq<seq<Ident>>, op: Op): set<Ident>
    requires OpOn(sets, op)
  {
    match op
    case Insert(s, x) => Denote(sets, s) + {x}
    case Union(a, b) => Denote(sets, a) + Denote(sets, b)
    case Intersect(a, b) => Denote(sets, a) * Denote(sets, b)
  }

  /** The vector an operation interns. */
  ghost function ResultVector(sets: seq<seq<Ident>>, op: Op): seq<Ident>
    requires OpOn(sets, op)
  {
    match op
    case Insert(s, x) => SetInsert(Vector(sets, s), x)
    case Union(a, b) => SetUnion(Vector(sets, a), Vector(sets, b))
    case Intersect(a, b) => SetIntersection(Vector(sets, a), Vector(sets, b))
  }

  lemma ResultVectorIsExact(sets: seq<seq<Ident>>, op: Op)
    requires WellFormed(sets) && OpOn(sets, op)
    ensures StrictlySorted(ResultVector(sets, op))
    ensures Elems(ResultVector(sets, op)) == Meaning(sets, op)
  {
    match op
    case Insert(s, x) => SetInsertIsExact(Vector(sets, s), x);
    case Union(a, b) => SetUnionIsExact(Vector(sets, a), Vector(sets, b));
    case Intersect(a, b) => SetIntersectionIsExact(Vector(sets, a), Vector(sets, b));
  }

  /** The table and result id after one operation. */
  ghost function Apply(sets: seq<seq<Ident>>, op: Op): (seq<seq<Ident>>, HideSetId)
    requires WellFormed(sets) && OpOn(sets, op)
  {
    Intern(sets, ResultVector(sets, op))
  }

  lemma ExtensionKeepsMeaning(sets: seq<seq<Ident>>, sets': seq<seq<Ident>>, id: HideSetId)
    requires sets <= sets' && IsId(sets, id)
    ensures IsId(sets', id) && Denote(sets', id) == Denote(sets, id)
  {
  }

  /** Interning finds the vector if it is there and otherwise appends it. */
  lemma InternIsExact(sets: seq<seq<Ident>>, v: seq<Ident>)
    requires WellFormed(sets) && StrictlySorted(v)
    ensures var (sets', id) := Intern(sets, v);
            WellFormed(sets') && sets <= sets' && IsId(sets', id) && Vector(sets', id) == v
            && |sets'| <= |sets| + 1
  {
    var (sets', id) := Intern(sets, v);
    forall i, j | 0 <= i < |sets'| && 0 <= j < |sets'| && SameVector(sets', i, j) ensures i == j {
      if i < |sets| && j < |sets| {
        assert SameVector(sets, i, j);
      }
    }
  }

  lemma KnownVector(sets: seq<seq<Ident>>, id: HideSetId)
    requires WellFormed(sets) && IsId(sets, id)
    ensures Intern(sets, Vector(sets, id)) == (sets, id)
  {
    if id != 0 {
      var v := sets[id - 1];
      assert v in sets;
      forall i: nat | i < |sets| && sets[i] == v ensures i == id - 1 {
        assert SameVector(sets, i, id - 1);
      }
    }
  }

  lemma SameOperands(sets: seq<seq<Ident>>, sets': seq<seq<Ident>>, op: Op)
    requires sets <= sets' && OpOn(sets, op)
    ensures OpOn(sets', op) && ResultVector(sets', op) == ResultVector(sets, op)
  {
    assert forall id: HideSetId :: IsId(sets, id) ==> IsId(sets', id) && Vector(sets', id) == Vector(sets, id);
  }

  /** One operation denotes the exact set operation, keeps the table well formed and
      every older id's meaning. */
  lemma ApplyIsExact(sets: seq<seq<Ident>>, op: Op)
    requires WellFormed(sets) && OpOn(sets, op)
    ensures var (sets', id) := Apply(sets, op);
            WellFormed(sets') && sets <= sets' && IsId(sets', id)
            && Vector(sets', id) == ResultVector(sets, op)
            && Denote(sets', id) == Meaning(sets, op)
            && |sets'| <= |sets| + 1
  {
    ResultVectorIsExact(sets, op);
    InternIsExact(sets, ResultVector(sets, op));
  }

  /** An id that already denotes the result is the id the operation returns, and the table is unchanged:
      this is why a memo hit is as good as recomputing. */
  lemma KnownResult(sets: seq<seq<Ident>>, op: Op, id: HideSetId)
    requires WellFormed(sets) && OpOn(sets, op) && IsId(sets, id)
    requires Vector(sets, id) == ResultVector(sets, op)
    ensures Apply(sets, op) == (sets, id)
  {
    KnownVector(sets, id);
  }

  /** A run of operations, each on ids the table already has. */
  ghost predicate RunOn(sets: seq<seq<Ident>>, ops: seq<Op>)
    requires WellFormed(sets)
    decreases |ops|
  {
    ops == [] ||
    (OpOn(sets, ops[0]) &&
     (ApplyIsExact(sets, ops[0]); RunOn(Apply(sets, ops[0]).0, ops[1..])))
  }

  ghost function Run(sets: seq<seq<Ident>>, ops: seq<Op>): seq<seq<Ident>>
    requires WellFormed(sets) && RunOn(sets, ops)
    decreases |ops|
  {
    if ops == [] then sets
    else ApplyIsExact(sets, ops[0]); Run(Apply(sets, ops[0]).0, ops[1..])
  }

  /** After any run of operations ids are still canonical and no earlier id has changed its meaning. */
  lemma {:induction false} RunKeepsIdsCanonical(sets: seq<seq<Ident>>, ops: seq<Op>)
    requires WellFormed(sets) && RunOn(sets, ops)
    ensures var after := Run(sets, ops);
            && WellFormed(after)
            && (forall id: HideSetId :: IsId(sets, id) ==> IsId(after, id) && Denote(after, id) == Denote(sets, id))
            && (forall a: HideSetId, b: HideSetId :: IsId(after, a) && IsId(after, b) ==>
                  (a == b <==> Denote(after, a) == Denote(after, b)))
    decreases |ops|
  {
    if ops == [] {
      forall a: HideSetId, b: HideSetId | IsId(sets, a) && IsId(sets, b)
        ensures a == b <==> Denote(sets, a) == Denote(sets, b)
      {
        IdsAreCanonical(sets, a, b);
      }
    } else {
      ApplyIsExact(sets, ops[0]);
      var next := Apply(sets, ops[0]).0;
      RunKeepsIdsCanonical(next, ops[1..]);
      forall id: HideSetId | IsId(sets, id)
        ensures IsId(next, id) && Denote(next, id) == Denote(sets, id)
      {
        ExtensionKeepsMeaning(sets, next, id);
      }
    }
  }

  // ---------------------------------------------------------------- the table as the source keeps it

  /** The operands a memo remembers an answer for. */
  datatype MemoKey = Key(hi: nat, lo: nat)

  /** The source shifts the first operand over the second, both 32 bits wide, into one 64-bit key. */
  function Packed(k: MemoKey): nat {
    k.hi * 0x1_0000_0000 + k.lo
  }

  /** As long as the second operand fits its half, packing keeps keys apart, so a memo on packed keys is a memo on pairs. */
  lemma PackedKeysAreExact(a: MemoKey, b: MemoKey)
    requires a.lo < 0x1_0000_0000 && b.lo < 0x1_0000_0000
    ensures Packed(a) == Packed(b) <==> a == b
    ensures a.hi < 0x1_0000_0000 ==> Packed(a) < 0x1_0000_0000_0000_0000
  {
    if Packed(a) == Packed(b) {
      assert a.hi == Packed(a) / 0x1_0000_0000 && b.hi == Packed(b) / 0x1_0000_0000;
    }
  }

  datatype MemoKind = InsertMemo | UnionMemo | IntersectMemo

  function OpOf(kind: MemoKind, hi: HideSetId, lo: HideSetId): Op {
    match kind
    case InsertMemo => Insert(hi, lo)
    case UnionMemo => Union(hi, lo)
    case IntersectMemo => Intersect(hi, lo)
  }

  /** A memo entry is the answer to the operation its key packs. */
  ghost predicate EntrySound(sets: seq<seq<Ident>>, kind: MemoKind, k: MemoKey, id: HideSetId) {
    var op := OpOf(kind, k.hi, k.lo);
    OpOn(sets, op) && IsId(sets, id) && Vector(sets, id) == ResultVector(sets, op)
  }

  ghost predicate MemoSound(sets: seq<seq<Ident>>, kind: MemoKind, memo: map<MemoKey, HideSetId>) {
    forall k :: k in memo ==> EntrySound(sets, kind, k, memo[k])
  }

  lemma MemoSurvivesGrowth(sets: seq<seq<Ident>>, sets': seq<seq<Ident>>, kind: MemoKind, memo: map<MemoKey, HideSetId>)
    requires sets <= sets' && MemoSound(sets, kind, memo)
    ensures MemoSound(sets', kind, memo)
  {
    forall k | k in memo ensures EntrySound(sets', kind, k, memo[k]) {
      assert EntrySound(sets, kind, k, memo[k]);
      SameOperands(sets, sets', OpOf(kind, k.hi, k.lo));
    }
  }

  /** Recording a freshly computed answer keeps the memo sound. */
  lemma MemoRecords(sets: seq<seq<Ident>>, sets': seq<seq<Ident>>, kind: MemoKind, memo: map<MemoKey, HideSetId>,
                    hi: HideSetId, lo: HideSetId, id: HideSetId)
    requires WellFormed(sets) && OpOn(sets, OpOf(kind, hi, lo))
    requires (sets', id) == Apply(sets, OpOf(kind, hi, lo))
    requires MemoSound(sets', kind, memo)
    ensures MemoSound(sets', kind, memo[Key(hi, lo) := id])
  {
    ApplyIsExact(sets, OpOf(kind, hi, lo));
    SameOperands(sets, sets', OpOf(kind, hi, lo));
    assert EntrySound(sets', kind, Key(hi, lo), id);
  }

  function Spliced(base: seq<Ident>, x: Ident, pos: nat): seq<Ident>
    requires pos <= |base|
  {
    base[..pos] + (if pos == |base| || base[pos] != x then [x] else []) + base[pos..]
  }

  /** Splicing at the lower bound builds the vector of the enlarged set. */
  lemma {:induction false} SpliceIsInsert(base: seq<Ident>, x: Ident, pos: nat)
    requires pos <= |base|
    requires forall i :: 0 <= i < pos ==> base[i] < x
    requires pos < |base| ==> x <= base[pos]
    ensures Spliced(base, x, pos) == SetInsert(base, x)
  {
    if pos == 0 {
      assert base[..pos] == [] && base[pos..] == base;
    } else {
      assert base[0] < x;
      SpliceIsInsert(base[1..], x, pos - 1);
      assert Spliced(base, x, pos) == [base[0]] + Spliced(base[1..], x, pos - 1);
    }
  }

  /** The operations on equal operands, answered without the memo. */
  lemma TrivialOperands(sets: seq<seq<Ident>>, a: HideSetId, b: HideSetId)
    requires WellFormed(sets) && IsId(sets, a) && IsId(sets, b)
    ensures a == b ==> ResultVector(sets, Union(a, b)) == Vector(sets, a)
    ensures a == b ==> ResultVector(sets, Intersect(a, b)) == Vector(sets, a)
  {
    if a == b {
      ResultVectorIsExact(sets, Union(a, b));
      ResultVectorIsExact(sets, Intersect(a, b));
      SortedVectorsAreCanonical(ResultVector(sets, Union(a, b)), Vector(sets, a));
      SortedVectorsAreCanonical(ResultVector(sets, Intersect(a, b)), Vector(sets, a));
    }
  }

  /** Union and intersection do not depend on the order the memo key puts the operands in. */
  lemma Symmetric(sets: seq<seq<Ident>>, a: HideSetId, b: HideSetId)
    requires WellFormed(sets) && IsId(sets, a) && IsId(sets, b)
    ensures ResultVector(sets, Union(a, b)) == ResultVector(sets, Union(b, a))
    ensures ResultVector(sets, Intersect(a, b)) == ResultVector(sets, Intersect(b, a))
  {
    ResultVectorIsExact(sets, Union(a, b));
    ResultVectorIsExact(sets, Union(b, a));
    ResultVectorIsExact(sets, Intersect(a, b));
    ResultVectorIsExact(sets, Intersect(b, a));
    SortedVectorsAreCanonical(ResultVector(sets, Union(a, b)), ResultVector(sets, Union(b, a)));
    SortedVectorsAreCanonical(ResultVector(sets, Intersect(a, b)), ResultVector(sets, Intersect(b, a)));
  }

  lemma SingletonInsert(x: Ident)
    ensures StrictlySorted([x]) && SetInsert([], x) == [x]
  {
  }

  /** The enlarged vector, built by splicing at std::lower_bound. */
  method InsertedVector(base: seq<Ident>, name: Ident) returns (merged: seq<Ident>)
    requires StrictlySorted(base)
    ensures merged == SetInsert(base, name)
  {
    var pos := LowerBound(base, name);
    merged := base[..pos];
    if pos == |base| || base[pos] != name {
      merged := merged + [name];
    }
    merged := merged + base[pos..];
    SpliceIsInsert(base, name, pos);
  }

  class HideSetTable {
    var sets: seq<seq<Ident>>
    var dedup: map<seq<Ident>, HideSetId>
    var unionMemo: map<MemoKey, HideSetId>
    var intersectMemo: map<MemoKey, HideSetId>
    var insertMemo: map<MemoKey, HideSetId>

    ghost predicate Valid()
      reads this
    {
      && WellFormed(sets)
      && (forall i :: 0 <= i < |sets| ==> sets[i] in dedup && dedup[sets[i]] == i + 1)
      && (forall v :: v in dedup ==> v in sets)
      && MemoSound(sets, InsertMemo, insertMemo)
      && MemoSound(sets, UnionMemo, unionMemo)
      && MemoSound(sets, IntersectMemo, intersectMemo)
    }

    constructor ()
      ensures Valid() && sets == []
    {
      sets, dedup := [], map[];
      unionMemo, intersectMemo, insertMemo := map[], map[], map[];
    }

    method InternVector(sortedNames: seq<Ident>) returns (id: HideSetId)
      requires Valid()
      requires StrictlySorted(sortedNames)
      modifies `sets, `dedup
      ensures Valid()
      ensures (sets, id) == Intern(old(sets), sortedNames)
    {
      if sortedNames == [] {
        return 0;
      }
      if sortedNames in dedup {
        return dedup[sortedNames];
      }
      id := |sets| + 1;
      dedup := dedup[sortedNames := id];
      sets := sets + [sortedNames];
      MemoSurvivesGrowth(old(sets), sets, InsertMemo, insertMemo);
      MemoSurvivesGrowth(old(sets), sets, UnionMemo, unionMemo);
      MemoSurvivesGrowth(old(sets), sets, IntersectMemo, intersectMemo);
    }

    method HideSetInsert(set_: HideSetId, name: Ident) returns (id: HideSetId)
      requires Valid() && IsId(sets, set_)
      modifies this
      ensures Valid()
      ensures (sets, id) == Apply(old(sets), Insert(set_, name))
      ensures IsId(sets, id) && Denote(sets, id) == old(Denote(sets, set_)) + {name}
    {
      ApplyIsExact(sets, Insert(set_, name));
      if set_ == 0 {
        SingletonInsert(name);
        id := InternVector([name]);
      } else {
        id := InsertMemoized(set_, name);
      }
    }

    /** The memoised part of HideSetInsert, on a nonempty set. */
    method InsertMemoized(set_: HideSetId, name: Ident) returns (id: HideSetId)
      requires Valid() && IsId(sets, set_) && set_ != 0
      modifies this
      ensures Valid()
      ensures (sets, id) == Apply(old(sets), Insert(set_, name))
    {
      assert OpOf(InsertMemo, set_, name) == Insert(set_, name);
      if Key(set_, name) in insertMemo {
        id := insertMemo[Key(set_, name)];
        KnownResult(sets, Insert(set_, name), id);
      } else {
        var merged := InsertedVector(sets[set_ - 1], name);
        ResultVectorIsExact(sets, Insert(set_, name));
        id := InternVector(merged);
        MemoRecords(old(sets), sets, InsertMemo, insertMemo, set_, name, id);
        insertMemo := insertMemo[Key(set_, name) := id];
      }
    }

    method HideSetUnion(lhs: HideSetId, rhs: HideSetId) returns (id: HideSetId)
      requires Valid() && IsId(sets, lhs) && IsId(sets, rhs)
      modifies this
      ensures Valid()
      ensures (sets, id) == Apply(old(sets), Union(lhs, rhs))
      ensures IsId(sets, id) && Denote(sets, id) == old(Denote(sets, lhs)) + old(Denote(sets, rhs))
    {
      ApplyIsExact(sets, Union(lhs, rhs));
      if lhs == 0 || lhs == rhs {
        id := rhs;
        TrivialOperands(sets, lhs, rhs);
        KnownResult(sets, Union(lhs, rhs), id);
      } else if rhs == 0 {
        id := lhs;
        KnownResult(sets, Union(lhs, rhs), id);
      } else if lhs > rhs {
        Symmetric(sets, lhs, rhs);
        id := UnionMemoized(rhs, lhs);
      } else {
        id := UnionMemoized(lhs, rhs);
      }
    }

    /** The memoised part of HideSetUnion, on ordered operands. */
    method UnionMemoized(lhs: HideSetId, rhs: HideSetId) returns (id: HideSetId)
      requires Valid() && IsId(sets, lhs) && IsId(sets, rhs)
      requires 0 < lhs < rhs
      modifies this
      ensures Valid()
      ensures (sets, id) == Apply(old(sets), Union(lhs, rhs))
    {
      assert OpOf(UnionMemo, lhs, rhs) == Union(lhs, rhs);
      if Key(lhs, rhs) in unionMemo {
        id := unionMemo[Key(lhs, rhs)];
        KnownResult(sets, Union(lhs, rhs), id);
      } else {
        var merged := SetUnion(sets[lhs - 1], sets[rhs - 1]);
        ResultVectorIsExact(sets, Union(lhs, rhs));
        id := InternVector(merged);
        MemoRecords(old(sets), sets, UnionMemo, unionMemo, lhs, rhs, id);
        unionMemo := unionMemo[Key(lhs, rhs) := id];
      }
    }

    method HideSetIntersect(lhs: HideSetId, rhs: HideSetId) returns (id: HideSetId)
      requires Valid() && IsId(sets, lhs) && IsId(sets, rhs)
      modifies this
      ensures Valid()
      ensures (sets, id) == Apply(old(sets), Intersect(lhs, rhs))
      ensures IsId(sets, id) && Denote(sets, id) == old(Denote(sets, lhs)) * old(Denote(sets, rhs))
    {
      ApplyIsExact(sets, Intersect(lhs, rhs));
      if lhs == 0 || rhs == 0 {
        id := 0;
        KnownResult(sets, Intersect(lhs, rhs), id);
      } else if lhs == rhs {
        id := lhs;
        TrivialOperands(sets, lhs, rhs);
        KnownResult(sets, Intersect(lhs, rhs), id);
      } else if lhs > rhs {
        Symmetric(sets, lhs, rhs);
        id := IntersectMemoized(rhs, lhs);
      } else {
        id := IntersectMemoized(lhs, rhs);
      }
    }

    /** The memoised part of HideSetIntersect, on ordered operands. */
    method IntersectMemoized(lhs: HideSetId, rhs: HideSetId) returns (id: HideSetId)
      requires Valid() && IsId(sets, lhs) && IsId(sets, rhs)
      requires 0 < lhs < rhs
      modifies this
      ensures Valid()
      ensures (sets, id) == Apply(old(sets), Intersect(lhs, rhs))
    {
      assert OpOf(IntersectMemo, lhs, rhs) == Intersect(lhs, rhs);
      if Key(lhs, rhs) in intersectMemo {
        id := intersectMemo[Key(lhs, rhs)];
        KnownResult(sets, Intersect(lhs, rhs), id);
      } else {
        var common := SetIntersection(sets[lhs - 1], sets[rhs - 1]);
        ResultVectorIsExact(sets, Intersect(lhs, rhs));
        id := InternVector(common);
        MemoRecords(old(sets), sets, IntersectMemo, intersectMemo, lhs, rhs, id);
        intersectMemo := intersectMemo[Key(lhs, rhs) := id];
      }
    }

    /** std::binary_search on the stored vector; identifier 0 is never hidden. */
    method HideSetContains(set_: HideSetId, name: Ident) returns (found: bool)
      requires Valid() && IsId(sets, set_)
      ensures found <==> name != 0 && name in Denote(sets, set_)
    {
      if set_ == 0 || name == 0 {
        return false;
      }
      var names := sets[set_ - 1];
      var pos := LowerBound(names, name);
      found := pos < |names| && names[pos] == name;
      SortedByIndex(names);
      if name in names {
        var i :| 0 <= i < |names| && names[i] == name;
        assert pos <= i && names[pos] <= name;
      }
    }
  }
}
