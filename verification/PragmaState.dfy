/** The pragma-state table of the source manager: recorded in token order, sorted and collapsed on demand, searched by
    offset, and appended to when a module is imported. Its meaning is a function of the recording log. */
module PragmaState {
  import opened Basics
  import Search

  /** The packing and diagnostic state in force. */
  datatype State = State(pack: nat, diag: nat)

  datatype Entry = Entry(offset: nat, state: State)

  // ---------------------------------------------------------------- the meaning of a table

  /** Of two candidates, the one at the greater offset; the later one at equal offsets. */
  function Better(a: Option<Entry>, b: Option<Entry>): Option<Entry> {
    if b.Some? && (a.Some? ==> a.value.offset <= b.value.offset) then b else a
  }

  function Candidate(e: Entry, q: nat): Option<Entry> {
    if e.offset <= q then Some(e) else None
  }

  /** The last recorded entry among those with the greatest offset that is not above q. */
  function Latest(table: seq<Entry>, q: nat): Option<Entry> {
    if table == [] then None else Better(Latest(table[..|table| - 1], q), Candidate(table[|table| - 1], q))
  }

  function StateAt(table: seq<Entry>, q: nat): Option<State> {
    match Latest(table, q)
    case None => None
    case Some(e) => Some(e.state)
  }

  /** The same thing in terms of positions: nothing recorded at or below q is at a greater offset, nor later at the same
      offset. */
  lemma {:induction false} LatestIsLastOfGreatest(table: seq<Entry>, q: nat)
    ensures Latest(table, q).None? <==> forall i :: 0 <= i < |table| ==> q < table[i].offset
    ensures Latest(table, q).Some? ==>
              exists k :: 0 <= k < |table| && Some(table[k]) == Latest(table, q) && IsLastOfGreatest(table, q, k)
  {
    if table != [] {
      var init, e := table[..|table| - 1], table[|table| - 1];
      LatestIsLastOfGreatest(init, q);
      hide IsLastOfGreatest;
      if Latest(table, q).Some? {
        if Latest(table, q) == Latest(init, q) && !(e.offset <= q && Latest(init, q).value.offset <= e.offset) {
          var k :| 0 <= k < |init| && Some(init[k]) == Latest(init, q) && IsLastOfGreatest(init, q, k);
          StillGreatest(table, q, k);
        } else {
          NewestIsGreatest(table, q);
        }
      }
    }
  }

  lemma StillGreatest(table: seq<Entry>, q: nat, k: nat)
    requires k < |table| - 1 && IsLastOfGreatest(table[..|table| - 1], q, k)
    requires !(table[|table| - 1].offset <= q && table[k].offset <= table[|table| - 1].offset)
    ensures IsLastOfGreatest(table, q, k)
  {
    var init := table[..|table| - 1];
    forall i | 0 <= i < |table| && table[i].offset <= q
      ensures table[i].offset <= table[k].offset && (k < i ==> table[i].offset < table[k].offset) {
      if i < |init| {
        assert init[i] == table[i];
      }
    }
  }

  lemma NewestIsGreatest(table: seq<Entry>, q: nat)
    requires table != [] && table[|table| - 1].offset <= q
    requires var l := Latest(table[..|table| - 1], q); l.Some? ==> l.value.offset <= table[|table| - 1].offset
    ensures IsLastOfGreatest(table, q, |table| - 1)
  {
    hide Latest;
    var init := table[..|table| - 1];
    forall i | 0 <= i < |init| && table[i].offset <= q ensures table[i].offset <= table[|table| - 1].offset {
      LatestIsUpperBound(init, q, i);
    }
  }

  lemma {:induction false} LatestIsUpperBound(table: seq<Entry>, q: nat, i: nat)
    requires i < |table| && table[i].offset <= q
    ensures Latest(table, q).Some? && table[i].offset <= Latest(table, q).value.offset
  {
    var init := table[..|table| - 1];
    if i < |init| {
      LatestIsUpperBound(init, q, i);
    }
  }

  ghost predicate IsLastOfGreatest(table: seq<Entry>, q: nat, k: nat)
    requires k < |table|
  {
    && table[k].offset <= q
    && (forall i :: 0 <= i < |table| && table[i].offset <= q ==> table[i].offset <= table[k].offset)
    && (forall i :: k < i < |table| && table[i].offset <= q ==> table[i].offset < table[k].offset)
  }

  lemma LatestSnoc(table: seq<Entry>, e: Entry, q: nat)
    ensures Latest(table + [e], q) == Better(Latest(table, q), Candidate(e, q))
  {
    assert (table + [e])[..|table|] == table;
  }

  lemma BetterIsAssociative(a: Option<Entry>, b: Option<Entry>, c: Option<Entry>)
    ensures Better(Better(a, b), c) == Better(a, Better(b, c))
  {
  }

  /** Looking up in two tables one after the other is looking up in each. */
  lemma {:induction false} LatestConcat(a: seq<Entry>, b: seq<Entry>, q: nat)
    ensures Latest(a + b, q) == Better(Latest(a, q), Latest(b, q))
  {
    if b == [] {
      assert a + b == a;
    } else {
      hide Better, Candidate;
      var init, e := b[..|b| - 1], b[|b| - 1];
      assert a + b == (a + init) + [e] && b == init + [e];
      LatestConcat(a, init, q);
      LatestSnoc(a + init, e, q);
      BetterIsAssociative(Latest(a, q), Latest(init, q), Candidate(e, q));
    }
  }

  lemma {:induction false} LatestIsBelow(table: seq<Entry>, q: nat)
    ensures Latest(table, q).Some? ==> Latest(table, q).value.offset <= q && Latest(table, q).value in table
  {
    if table != [] {
      LatestIsBelow(table[..|table| - 1], q);
    }
  }

  // ---------------------------------------------------------------- recording

  /** The call recordPragmaState ignores: the last state again, one past its offset. */
  predicate Drops(table: seq<Entry>, e: Entry) {
    table != [] && e.offset == table[|table| - 1].offset + 1 && table[|table| - 1].state == e.state
  }

  /** The table after recordPragmaState. */
  function Recorded(table: seq<Entry>, e: Entry): seq<Entry> {
    if Drops(table, e) then table
    else if table != [] && table[|table| - 1].offset == e.offset then table[..|table| - 1] + [e]
    else table + [e]
  }

  /** The last state recorded at exactly this offset. */
  function StateExactlyAt(table: seq<Entry>, offset: nat): Option<State> {
    if table == [] then None
    else if table[|table| - 1].offset == offset then Some(table[|table| - 1].state)
    else StateExactlyAt(table[..|table| - 1], offset)
  }

  /** The call the compaction in recordPragmaState gets wrong: it drops an entry one past the last one, although another
      state is on record for that very offset. */
  predicate DropsNews(table: seq<Entry>, e: Entry) {
    && Drops(table, e)
    && StateExactlyAt(table, e.offset).Some? && StateExactlyAt(table, e.offset) != Some(e.state)
  }

  lemma {:induction false} ExactlyAtIsLatest(table: seq<Entry>, offset: nat)
    ensures StateExactlyAt(table, offset).Some? ==>
              Latest(table, offset).Some? && Latest(table, offset).value == Entry(offset, StateExactlyAt(table, offset).value)
    ensures StateExactlyAt(table, offset).None? ==> Latest(table, offset).Some? ==> Latest(table, offset).value.offset < offset
  {
    if table != [] {
      ExactlyAtIsLatest(table[..|table| - 1], offset);
    }
  }

  lemma Replaced(table: seq<Entry>, e: Entry, q: nat)
    requires table != [] && table[|table| - 1].offset == e.offset
    ensures Latest(table[..|table| - 1] + [e], q) == Latest(table + [e], q)
  {
    var init, last := table[..|table| - 1], table[|table| - 1];
    LatestSnoc(init, e, q);
    LatestSnoc(table, e, q);
  }

  lemma Dropped(table: seq<Entry>, e: Entry, q: nat)
    requires table != [] && e.offset == table[|table| - 1].offset + 1 && table[|table| - 1].state == e.state
    requires !DropsNews(table, e)
    ensures StateAt(table, q) == StateAt(table + [e], q)
  {
    hide StateExactlyAt;
    LatestSnoc(table, e, q);
    if e.offset <= q {
      ExactlyAtIsLatest(table, e.offset);
      LatestIsBelow(table, q);
      Between(table, e.offset, q);
      var init, last := table[..|table| - 1], table[|table| - 1];
      assert Latest(table, e.offset - 1) == Better(Latest(init, e.offset - 1), Some(last));
      LatestIsBelow(init, e.offset - 1);
      LatestIsBelow(table, e.offset);
      Between(table, e.offset - 1, e.offset);
    }
  }

  /** A lookup at q finds what a lookup at p does, unless something is recorded in between. */
  lemma {:induction false} Between(table: seq<Entry>, p: nat, q: nat)
    requires p <= q
    ensures Latest(table, q) == Latest(table, p) || (Latest(table, q).Some? && p < Latest(table, q).value.offset)
  {
    if table != [] {
      Between(table[..|table| - 1], p, q);
      LatestIsBelow(table[..|table| - 1], p);
    }
  }

  lemma NewsLost(table: seq<Entry>, e: Entry)
    requires DropsNews(table, e)
    ensures StateAt(table, e.offset) != StateAt(table + [e], e.offset)
  {
    hide StateExactlyAt;
    LatestSnoc(table, e, e.offset);
    ExactlyAtIsLatest(table, e.offset);
  }

  /** Recording an entry changes lookups exactly as appending it would, except in the one case above, where it does
      not. */
  lemma RecordingIsAppendingExactly(table: seq<Entry>, e: Entry)
    ensures (forall q :: StateAt(Recorded(table, e), q) == StateAt(table + [e], q)) <==> !DropsNews(table, e)
  {
    hide StateExactlyAt;
    if DropsNews(table, e) {
      NewsLost(table, e);
      assert Recorded(table, e) == table;
    } else {
      forall q ensures StateAt(Recorded(table, e), q) == StateAt(table + [e], q) {
        if table != [] {
          var last := table[|table| - 1];
          if last.offset == e.offset {
            Replaced(table, e, q);
          } else if e.offset == last.offset + 1 && last.state == e.state {
            Dropped(table, e, q);
          }
        } else {
          assert table + [e] == [e];
        }
      }
    }
  }

  /** Recording at offsets that never fall below one already in the table loses nothing. */
  lemma {:induction false} MonotoneLosesNothing(table: seq<Entry>, e: Entry)
    requires forall x :: x in table ==> x.offset <= e.offset
    requires table != [] ==> forall x :: x in table ==> x.offset <= table[|table| - 1].offset
    ensures !DropsNews(table, e)
  {
    ExactlyAtIsLatest(table, e.offset);
    LatestIsBelow(table, e.offset);
  }

  // ---------------------------------------------------------------- sorting

  ghost predicate Sorted(s: seq<Entry>) {
    forall i, j :: 0 <= i < j < |s| ==> s[i].offset <= s[j].offset
  }

  /** A new last element moved in front of all greater ones, and no further: what a stable sort does. */
  function Insert(s: seq<Entry>, e: Entry): seq<Entry> {
    if s != [] && e.offset < s[|s| - 1].offset then Insert(s[..|s| - 1], e) + [s[|s| - 1]] else s + [e]
  }

  function StableSort(table: seq<Entry>): seq<Entry> {
    if table == [] then [] else Insert(StableSort(table[..|table| - 1]), table[|table| - 1])
  }

  lemma {:induction false} InsertSorts(s: seq<Entry>, e: Entry)
    requires Sorted(s)
    ensures Sorted(Insert(s, e))
    ensures forall x :: x in Insert(s, e) ==> x in s || x == e
  {
    if s != [] && e.offset < s[|s| - 1].offset {
      InsertSorts(s[..|s| - 1], e);
      forall x | x in Insert(s[..|s| - 1], e) ensures x.offset <= s[|s| - 1].offset {
        if x in s[..|s| - 1] {
          var i :| 0 <= i < |s| - 1 && s[i] == x;
        }
      }
    }
  }

  /** Moving an entry in front of greater ones changes no lookup. */
  lemma {:induction false} InsertKeepsLatest(s: seq<Entry>, e: Entry, q: nat)
    ensures Latest(Insert(s, e), q) == Latest(s + [e], q)
  {
    LatestSnoc(s, e, q);
    if s != [] && e.offset < s[|s| - 1].offset {
      var init, last := s[..|s| - 1], s[|s| - 1];
      InsertKeepsLatest(init, e, q);
      LatestSnoc(init, e, q);
      LatestSnoc(Insert(init, e), last, q);
      LatestIsBelow(init, q);
    }
  }

  lemma {:induction false} SortingKeepsLookups(table: seq<Entry>, q: nat)
    ensures Sorted(StableSort(table))
    ensures Latest(StableSort(table), q) == Latest(table, q)
  {
    if table != [] {
      hide Insert, Sorted;
      var init, e := table[..|table| - 1], table[|table| - 1];
      SortingKeepsLookups(init, q);
      InsertSorts(StableSort(init), e);
      InsertKeepsLatest(StableSort(init), e, q);
      LatestSnoc(StableSort(init), e, q);
    } else {
      assert Sorted([]);
    }
  }

  // ---------------------------------------------------------------- collapsing

  /** One step of the collapsing loop. */
  function Collapse(done: seq<Entry>, e: Entry): seq<Entry> {
    if done != [] && done[|done| - 1].offset == e.offset then done[..|done| - 1] + [e]
    else if done != [] && done[|done| - 1].state == e.state then done
    else done + [e]
  }

  function Collapsed(s: seq<Entry>): seq<Entry> {
    if s == [] then [] else Collapse(Collapsed(s[..|s| - 1]), s[|s| - 1])
  }

  function Key(e: Entry): int {
    e.offset
  }

  ghost predicate StrictlySorted(s: seq<Entry>) {
    Search.SortedBy(s, Key)
  }

  /** Collapsing a sorted table leaves strictly increasing offsets, none above the last one collapsed. */
  lemma {:induction false} CollapsedIsStrict(s: seq<Entry>)
    requires Sorted(s)
    ensures StrictlySorted(Collapsed(s))
    ensures s != [] ==> forall x :: x in Collapsed(s) ==> x.offset <= s[|s| - 1].offset
    ensures s != [] ==> Collapsed(s) != []
  {
    if s != [] {
      var init, e := s[..|s| - 1], s[|s| - 1];
      CollapsedIsStrict(init);
      var done := Collapsed(init);
      assert forall x :: x in done ==> x.offset <= e.offset;
      CollapseIsStrict(done, e);
    }
  }

  lemma CollapseIsStrict(done: seq<Entry>, e: Entry)
    requires StrictlySorted(done) && forall x :: x in done ==> x.offset <= e.offset
    ensures StrictlySorted(Collapse(done, e))
    ensures forall x :: x in Collapse(done, e) ==> x.offset <= e.offset
    ensures Collapse(done, e) != []
  {
    if done != [] && done[|done| - 1].offset < e.offset {
      forall i | 0 <= i < |done| ensures done[i].offset < e.offset {
        if i < |done| - 1 {
          assert Key(done[i]) < Key(done[|done| - 1]);
        }
      }
    }
  }

  /** In a table with no offset above the last one, an entry that repeats the last state adds nothing. */
  lemma CollapseKeepsStates(done: seq<Entry>, e: Entry, q: nat)
    requires forall x :: x in done ==> x.offset <= e.offset
    requires done != [] ==> forall x :: x in done ==> x.offset <= done[|done| - 1].offset
    ensures StateAt(Collapse(done, e), q) == StateAt(done + [e], q)
  {
    LatestSnoc(done, e, q);
    if done != [] {
      var init, last := done[..|done| - 1], done[|done| - 1];
      LatestIsBelow(init, q);
      if last.offset == e.offset {
        LatestSnoc(init, e, q);
      }
    }
  }

  lemma SortedInit(s: seq<Entry>)
    requires Sorted(s) && s != []
    ensures Sorted(s[..|s| - 1]) && AllUpTo(s[..|s| - 1], s[|s| - 1].offset)
    ensures StrictlySorted(Collapsed(s[..|s| - 1])) && AllUpTo(Collapsed(s[..|s| - 1]), s[|s| - 1].offset)
  {
    hide StrictlySorted;
    var init := s[..|s| - 1];
    CollapsedIsStrict(init);
    if init == [] {
      assert Collapsed(init) == [];
    } else {
      hide Collapsed;
      assert init[|init| - 1].offset <= s[|s| - 1].offset;
    }
  }

  lemma {:induction false} CollapsingKeepsStates(s: seq<Entry>, q: nat)
    requires Sorted(s)
    ensures StateAt(Collapsed(s), q) == StateAt(s, q)
  {
    hide Latest, StateAt, Collapse, StrictlySorted, Collapsed, Sorted;
    if s != [] {
      var init, e := s[..|s| - 1], s[|s| - 1];
      SortedInit(s);
      CollapsingKeepsStates(init, q);
      var done := Collapsed(init);
      if done != [] {
        LastIsGreatest(done);
      }
      CollapseKeepsStates(done, e, q);
      AppendAbove(done, e, q);
      AppendAbove(init, e, q);
      assert init + [e] == s;
      assert Collapsed(s) == Collapse(done, e) by { CollapsedStep(s); }
    } else {
      assert Collapsed(s) == s by { CollapsedStep(s); }
    }
  }

  lemma CollapsedStep(s: seq<Entry>)
    ensures Collapsed(s) == if s == [] then [] else Collapse(Collapsed(s[..|s| - 1]), s[|s| - 1])
  {
  }

  /** An entry at or above everything recorded decides every lookup from its offset on. */
  lemma AppendAbove(table: seq<Entry>, e: Entry, q: nat)
    requires forall x :: x in table ==> x.offset <= e.offset
    ensures StateAt(table + [e], q) == if e.offset <= q then Some(e.state) else StateAt(table, q)
  {
    hide Latest;
    LatestSnoc(table, e, q);
    LatestIsBelow(table, q);
  }

  lemma LastIsGreatest(done: seq<Entry>)
    requires StrictlySorted(done) && done != []
    ensures forall x :: x in done ==> x.offset <= done[|done| - 1].offset
  {
    forall i | 0 <= i < |done| ensures done[i].offset <= done[|done| - 1].offset {
      if i < |done| - 1 {
        assert Key(done[i]) < Key(done[|done| - 1]);
      }
    }
  }

  lemma CompactionIsStrict(table: seq<Entry>)
    ensures StrictlySorted(Compacted(table))
  {
    hide Collapsed, StableSort, Sorted;
    SortingKeepsLookups(table, 0);
    CollapsedIsStrict(StableSort(table));
  }

  function Compacted(table: seq<Entry>): seq<Entry> {
    Collapsed(StableSort(table))
  }

  predicate AnsweredAlike(table: seq<Entry>, q: nat) {
    StateAt(Compacted(table), q) == StateAt(table, q)
  }

  /** Sorting and collapsing a table, as often as one likes, answers every query as the recordings do. */
  lemma CompactionKeepsStates(table: seq<Entry>, q: nat)
    ensures AnsweredAlike(table, q)
  {
    hide Collapsed, StableSort, Sorted;
    SortingKeepsLookups(table, q);
    CollapsingKeepsStates(StableSort(table), q);
  }

  /** In a strictly sorted table, the entry in front of the first greater one is the latest. */
  lemma {:induction false} BinarySearchFindsLatest(table: seq<Entry>, q: nat, k: nat)
    requires StrictlySorted(table) && k <= |table|
    requires forall i :: 0 <= i < k ==> table[i].offset <= q
    requires forall i :: k <= i < |table| ==> q < table[i].offset
    ensures Latest(table, q) == if k == 0 then None else Some(table[k - 1])
  {
    if table != [] {
      var init := table[..|table| - 1];
      if k == |table| {
        LatestIsBelow(init, q);
        LastIsGreatest(table);
      } else {
        BinarySearchFindsLatest(init, q, k);
      }
    }
  }

  // ---------------------------------------------------------------- the table in the source manager

  /** The pragma part of a source manager. States of diagnostics are kept in a list that the table indexes. */
  class PragmaTable {
    var table: seq<Entry>
    var sorted: bool
    var diagnosticStates: seq<int>
    ghost var log: seq<Entry>

    constructor (initial: int)
      ensures Valid() && log == [] && diagnosticStates == [initial] && Contents() == EmptyStore
    {
      table, sorted, diagnosticStates, log := [], true, [initial], [];
    }

    /** The table with its mark, as runs see it. */
    ghost function Contents(): (s: Store)
      reads this
    {
      Store(table, sorted)
    }

    /** A table that is marked sorted is; what is in the table was recorded; and as long as the recordings came in order
        of their offsets, every query is answered as if nothing had been compacted. */
    ghost predicate Valid()
      reads this
    {
      && (sorted ==> StrictlySorted(table))
      && (forall x :: x in table ==> x in log)
      && (Sorted(log) ==> SameStates(table, log) && LastOnTop(table))
    }

    /** Records a state at an offset; the invalid location 0 is ignored. */
    method RecordPragmaState(offset: nat, pack: nat, diag: nat)
      requires Valid()
      modifies `table, `sorted, `log
      ensures Valid()
      ensures var op := Record(Entry(offset, State(pack, diag)));
              log == LogAfter(old(log), op) && Contents() == StoreAfter(old(Contents()), op)
      ensures var e := Entry(offset, State(pack, diag));
              offset != 0 && old(SameStates(table, log)) ==>
                (SameStates(table, log) <==> !DropsNews(old(table), e) && !Forgets(old(table), old(log), [e]))
    {
      hide DropsNews, Latest, StrictlySorted, Sorted, SameStates, LastOnTop, Forgets;
      if offset == 0 {
        return;
      }
      ghost var e := Entry(offset, State(pack, diag));
      ghost var before, logBefore := table, log;
      log := log + [e];
      if table != [] {
        var last := table[|table| - 1];
        if last.offset == offset {
          table := table[..|table| - 1] + [Entry(offset, State(pack, diag))];
          sorted := false;
        } else if offset == last.offset + 1 && last.state.pack == pack && last.state.diag == diag {
        } else {
          table := table + [Entry(offset, State(pack, diag))];
          sorted := false;
        }
      } else {
        table := table + [Entry(offset, State(pack, diag))];
        sorted := false;
      }
      assert table == Recorded(before, e);
      if SameStates(before, logBefore) {
        RecordedFaithfully(before, logBefore, e);
      }
      RecordedInOrder(before, logBefore, e);
    }

    /** Compacts a table that is not marked sorted, and leaves one that is marked alone. */
    method EnsureSorted()
      requires Valid()
      modifies `table, `sorted
      ensures Valid() && sorted
      ensures Contents() == StoreAfter(old(Contents()), Compact) && SameStates(table, old(table))
    {
      hide StrictlySorted, Collapse, SameStates, LastOnTop, Sorted, StableSort;
      SameAsItself(table);
      if sorted {
        return;
      }
      ghost var before := table;
      table := StableSort(table);
      ghost var ordered := table;
      var collapsed := [];
      for i := 0 to |table|
        invariant table == ordered
        invariant collapsed == Collapsed(table[..i])
      {
        var entry := table[i];
        assert table[..i + 1][..i] == table[..i];
        if collapsed != [] && collapsed[|collapsed| - 1].offset == entry.offset {
          collapsed := CollapsedOnto(collapsed, entry);
          continue;
        }
        if collapsed != [] && collapsed[|collapsed| - 1].state == entry.state {
          CollapsedAway(collapsed, entry);
          continue;
        }
        CollapsedAway(collapsed, entry);
        collapsed := collapsed + [entry];
      }
      assert table[..|table|] == table;
      table := collapsed;
      sorted := true;
      CompactedTable(before);
    }

    /** The pragma part of importing another manager's block: its compacted table, shifted and renumbered, goes behind
        this one, and counts as recorded here. */
    method ImportPragmas(source: PragmaTable, delta: nat)
      requires Valid() && source.Valid() && source != this && diagnosticStates != [] && source.diagnosticStates != []
      modifies this, source`table, source`sorted
      ensures Valid() && source.Valid() && SameStates(source.table, old(source.table))
      ensures source.Contents() == StoreAfter(old(source.Contents()), Compact)
      ensures diagnosticStates == old(diagnosticStates) + source.diagnosticStates[1..]
      ensures var op := Import(RebaseAll(source.table, delta, |old(diagnosticStates)|));
              log == LogAfter(old(log), op) && Contents() == StoreAfter(old(Contents()), op)
    {
      hide Latest, StrictlySorted, Sorted, SameStates, LastOnTop, Compacted, Recorded, Drops, StateAt;
      ghost var table0, log0 := table, log;
      var diagBase := |diagnosticStates|;
      diagnosticStates := diagnosticStates + source.diagnosticStates[1..];
      source.EnsureSorted();
      label After:
      assert RebaseAll(source.table[..0], delta, diagBase) == [];
      for i := 0 to |source.table|
        invariant source.Contents() == old@After(source.Contents()) && source.Valid() && sorted == old(sorted)
        invariant diagnosticStates == old(diagnosticStates) + source.diagnosticStates[1..] && log == log0
        invariant table == table0 + RebaseAll(source.table[..i], delta, diagBase)
      {
        var e := source.table[i];
        var diag := if e.state.diag == 0 then 0 else diagBase + (e.state.diag - 1);
        assert source.table[..i + 1][..i] == source.table[..i];
        table := table + [Entry(e.offset + delta, State(e.state.pack, diag))];
      }
      assert source.table[..|source.table|] == source.table;
      ghost var more := RebaseAll(source.table, delta, diagBase);
      log := log + more;
      sorted := false;
      ImportInOrder(table0, log0, more);
    }

    /** The packing at an offset, 0 at the invalid location and where nothing is recorded. */
    method GetPackAlignment(offset: nat) returns (pack: nat)
      requires Valid()
      modifies `table, `sorted
      ensures Valid() && SameStates(table, old(table))
      ensures Contents() == if offset == 0 then old(Contents()) else StoreAfter(old(Contents()), Compact)
      ensures pack == if offset == 0 then 0 else match StateAt(old(table), offset) case None => 0 case Some(s) => s.pack
    {
      hide Latest, Sorted, LastOnTop;
      if offset == 0 {
        return 0;
      }
      EnsureSorted();
      var k := Search.UpperBound(table, Key, offset);
      forall i | 0 <= i < k ensures table[i].offset <= offset { assert Key(table[i]) <= offset; }
      forall i | k <= i < |table| ensures offset < table[i].offset { assert offset < Key(table[i]); }
      BinarySearchFindsLatest(table, offset, k);
      pack := if k == 0 then 0 else table[k - 1].state.pack;
    }
  }

  lemma ImportInOrder(table: seq<Entry>, log: seq<Entry>, more: seq<Entry>)
    requires forall x :: x in table ==> x in log
    requires Sorted(log) ==> SameStates(table, log) && LastOnTop(table)
    ensures Sorted(log + more) ==> SameStates(table + more, log + more) && LastOnTop(table + more)
  {
    hide Latest, StateAt, SameStates;
    if Sorted(log + more) {
      forall i, j | 0 <= i < j < |log| ensures log[i].offset <= log[j].offset {
        assert (log + more)[i] == log[i] && (log + more)[j] == log[j];
      }
      forall i, j | 0 <= i < |log| && 0 <= j < |more| ensures log[i].offset <= more[j].offset {
        assert (log + more)[i] == log[i] && (log + more)[|log| + j] == more[j];
      }
      forall j | 0 <= j < |more| ensures more[j].offset <= more[|more| - 1].offset {
        assert (log + more)[|log| + j] == more[j] && (log + more)[|log| + |more| - 1] == more[|more| - 1];
      }
      NothingForgottenOnTop(table, log, more);
      AppendedFaithfully(table, log, more);
    }
  }

  /** All that compaction keeps. */
  lemma CompactedTable(table: seq<Entry>)
    ensures var t := Compacted(table);
            StrictlySorted(t) && LastOnTop(t) && SameStates(t, table) && forall x :: x in t ==> x in table
    ensures forall log :: SameStates(table, log) ==> SameStates(Compacted(table), log)
  {
    hide Latest, StrictlySorted, Collapsed, StateAt, StableSort;
    var t := Compacted(table);
    forall q ensures StateAt(t, q) == StateAt(table, q) {
      CompactionKeepsStates(table, q);
    }
    CompactionIsStrict(table);
    CompactionKeepsMembers(table);
    if t != [] {
      LastIsGreatest(t);
    }
  }

  method CollapsedOnto(done: seq<Entry>, e: Entry) returns (r: seq<Entry>)
    requires done != [] && done[|done| - 1].offset == e.offset
    ensures r == Collapse(done, e)
  {
    r := done[|done| - 1 := e];
    assert r == done[..|done| - 1] + [e];
  }

  lemma CollapsedAway(done: seq<Entry>, e: Entry)
    requires done == [] || done[|done| - 1].offset != e.offset
    ensures Collapse(done, e) == if done != [] && done[|done| - 1].state == e.state then done else done + [e]
  {
  }

  ghost predicate SameStates(a: seq<Entry>, b: seq<Entry>) {
    forall q :: StateAt(a, q) == StateAt(b, q)
  }

  lemma SameAsItself(a: seq<Entry>)
    ensures SameStates(a, a)
  {
  }

  ghost predicate AllUpTo(log: seq<Entry>, offset: nat) {
    forall x :: x in log ==> x.offset <= offset
  }

  ghost predicate LastOnTop(table: seq<Entry>) {
    table != [] ==> AllUpTo(table, table[|table| - 1].offset)
  }

  /** At q the log has an entry above the new one, with another state, that the table has collapsed away. */
  predicate ForgottenAt(table: seq<Entry>, log: seq<Entry>, more: seq<Entry>, q: nat) {
    && Latest(more, q).Some? && Latest(log, q).Some?
    && Latest(more, q).value.offset < Latest(log, q).value.offset && Latest(log, q).value.state != Latest(more, q).value.state
    && (Latest(table, q).Some? ==> Latest(table, q).value.offset <= Latest(more, q).value.offset)
  }

  lemma AppendedAt(table: seq<Entry>, log: seq<Entry>, more: seq<Entry>, q: nat)
    requires StateAt(table, q) == StateAt(log, q) && forall x :: x in table ==> x in log
    ensures StateAt(table + more, q) == StateAt(log + more, q) <==> !ForgottenAt(table, log, more, q)
  {
    hide Latest;
    LatestConcat(table, more, q);
    LatestConcat(log, more, q);
    LatestIsBelow(table, q);
    LatestIsBelow(log, q);
    if Latest(table, q).Some? {
      var x := Latest(table, q).value;
      var i :| 0 <= i < |log| && log[i] == x;
      LatestIsUpperBound(log, q, i);
    }
  }

  /** The table has forgotten an entry above the new ones: a logged entry at whose offset another state is in force, and
      down to the offset of the new entry in front of it the table has nothing left. */
  predicate Forgets(table: seq<Entry>, log: seq<Entry>, more: seq<Entry>) {
    exists i :: 0 <= i < |log| && ForgetsEntry(table, log, Latest(more, log[i].offset), log[i])
  }

  predicate ForgetsEntry(table: seq<Entry>, log: seq<Entry>, e: Option<Entry>, x: Entry) {
    && e.Some? && e.value.offset < x.offset && StateAt(log, x.offset) != Some(e.value.state)
    && (forall j :: 0 <= j < |table| ==> !(e.value.offset < table[j].offset <= x.offset))
  }

  /** That finite test is whether any lookup at all would go wrong. */
  lemma ForgetsExactly(table: seq<Entry>, log: seq<Entry>, more: seq<Entry>)
    ensures Forgets(table, log, more) <==> exists q :: ForgottenAt(table, log, more, q)
  {
    hide Latest, ForgottenAt, ForgetsEntry;
    if q :| ForgottenAt(table, log, more, q) {
      var i := ForgottenEntry(table, log, more, q);
    }
    if i :| 0 <= i < |log| && ForgetsEntry(table, log, Latest(more, log[i].offset), log[i]) {
      ForgottenOffset(table, log, more, i);
    }
  }

  lemma ForgottenEntry(table: seq<Entry>, log: seq<Entry>, more: seq<Entry>, q: nat) returns (i: nat)
    requires ForgottenAt(table, log, more, q)
    ensures i < |log| && ForgetsEntry(table, log, Latest(more, log[i].offset), log[i])
  {
    hide Latest;
    LatestIsBelow(log, q);
    LatestIsBelow(more, q);
    var x := Latest(log, q).value;
    i :| 0 <= i < |log| && log[i] == x;
    Between(log, x.offset, q);
    Between(more, x.offset, q);
    forall j | 0 <= j < |table| ensures !(Latest(more, q).value.offset < table[j].offset <= x.offset) {
      if Latest(more, q).value.offset < table[j].offset <= x.offset {
        LatestIsUpperBound(table, q, j);
      }
    }
  }

  lemma ForgottenOffset(table: seq<Entry>, log: seq<Entry>, more: seq<Entry>, i: nat)
    requires i < |log| && ForgetsEntry(table, log, Latest(more, log[i].offset), log[i])
    ensures ForgottenAt(table, log, more, log[i].offset)
  {
    hide Latest;
    var q := log[i].offset;
    LatestIsUpperBound(log, q, i);
    LatestIsBelow(log, q);
    LatestIsBelow(table, q);
    if Latest(table, q).Some? {
      var j :| 0 <= j < |table| && table[j] == Latest(table, q).value;
    }
  }

  /** From a table that answers as the log does, appending keeps it so if and only if the table has forgotten no entry
      above an appended one. */
  lemma AppendedFaithfully(table: seq<Entry>, log: seq<Entry>, more: seq<Entry>)
    requires SameStates(table, log) && forall x :: x in table ==> x in log
    ensures SameStates(table + more, log + more) <==> !Forgets(table, log, more)
  {
    hide Latest, StateAt, ForgottenAt, Forgets;
    forall q ensures StateAt(table + more, q) == StateAt(log + more, q) <==> !ForgottenAt(table, log, more, q) {
      AppendedAt(table, log, more, q);
    }
    ForgetsExactly(table, log, more);
  }

  /** A recording keeps it so if and only if, moreover, it is not dropped news. */
  lemma RecordedFaithfully(table: seq<Entry>, log: seq<Entry>, e: Entry)
    requires SameStates(table, log) && forall x :: x in table ==> x in log
    ensures SameStates(Recorded(table, e), log + [e]) <==> !DropsNews(table, e) && !Forgets(table, log, [e])
  {
    hide Latest, StateAt, Recorded, DropsNews, Forgets;
    RecordingIsAppendingExactly(table, e);
    AppendedFaithfully(table, log, [e]);
    if DropsNews(table, e) {
      NewsLostToLog(table, log, e);
    }
  }

  lemma NewsLostToLog(table: seq<Entry>, log: seq<Entry>, e: Entry)
    requires DropsNews(table, e)
    ensures StateAt(Recorded(table, e), e.offset) != StateAt(log + [e], e.offset)
  {
    hide StateExactlyAt, Latest;
    NewsLost(table, e);
    LatestSnoc(table, e, e.offset);
    LatestSnoc(log, e, e.offset);
    LatestIsBelow(table, e.offset);
    LatestIsBelow(log, e.offset);
  }

  lemma NothingForgottenOnTop(table: seq<Entry>, log: seq<Entry>, more: seq<Entry>)
    requires forall x, y :: x in log && y in more ==> x.offset <= y.offset
    ensures !Forgets(table, log, more)
  {
    hide Latest;
    forall i | 0 <= i < |log| ensures !ForgetsEntry(table, log, Latest(more, log[i].offset), log[i]) {
      LatestIsBelow(more, log[i].offset);
    }
  }

  lemma RecordedInOrder(table: seq<Entry>, log: seq<Entry>, e: Entry)
    requires forall x :: x in table ==> x in log
    requires Sorted(log) ==> SameStates(table, log) && LastOnTop(table)
    ensures Sorted(log + [e]) ==> SameStates(Recorded(table, e), log + [e]) && LastOnTop(Recorded(table, e))
  {
    hide Latest, StateAt, DropsNews, SameStates;
    if Sorted(log + [e]) {
      forall i, j | 0 <= i < j < |log| ensures log[i].offset <= log[j].offset {
        assert (log + [e])[i] == log[i] && (log + [e])[j] == log[j];
      }
      forall i | 0 <= i < |log| ensures log[i].offset <= e.offset {
        assert (log + [e])[i] == log[i] && (log + [e])[|log|] == e;
      }
      RecordedFaithfully(table, log, e);
      NothingForgottenOnTop(table, log, [e]);
      MonotoneLosesNothing(table, e);
    }
  }

  lemma {:induction false} InsertMembers(s: seq<Entry>, e: Entry)
    ensures forall x :: x in Insert(s, e) ==> x in s || x == e
  {
    if s != [] && e.offset < s[|s| - 1].offset {
      InsertMembers(s[..|s| - 1], e);
    }
  }

  lemma {:induction false} SortMembers(t: seq<Entry>)
    ensures forall x :: x in StableSort(t) ==> x in t
  {
    if t != [] {
      SortMembers(t[..|t| - 1]);
      InsertMembers(StableSort(t[..|t| - 1]), t[|t| - 1]);
    }
  }

  lemma {:induction false} CollapseMembers(s: seq<Entry>)
    ensures forall x :: x in Collapsed(s) ==> x in s
  {
    if s != [] {
      CollapseMembers(s[..|s| - 1]);
      CollapseAdds(Collapsed(s[..|s| - 1]), s[|s| - 1]);
    }
  }

  lemma CollapseAdds(done: seq<Entry>, e: Entry)
    ensures forall x :: x in Collapse(done, e) ==> x in done || x == e
  {
  }

  lemma CompactionKeepsMembers(t: seq<Entry>)
    ensures forall x :: x in Compacted(t) ==> x in t
  {
    hide Collapsed, StableSort;
    SortMembers(t);
    CollapseMembers(StableSort(t));
  }

  // ---------------------------------------------------------------- whole runs

  /** What a run does to the table: it records states as tokens come, compacts whenever it is asked, and appends the
      rebased table of an imported manager. */
  datatype Op = Record(entry: Entry) | Compact | Import(entries: seq<Entry>)

  /** The table and its mark: a marked table is not compacted again. */
  datatype Store = Store(table: seq<Entry>, sorted: bool)

  function StoreAfter(t: Store, op: Op): Store {
    match op
    case Record(e) => if e.offset == 0 || Drops(t.table, e) then t else Store(Recorded(t.table, e), false)
    case Compact => if t.sorted then t else Store(Compacted(t.table), true)
    case Import(entries) => Store(t.table + entries, false)
  }

  function LogAfter(log: seq<Entry>, op: Op): seq<Entry> {
    match op
    case Record(e) => if e.offset == 0 then log else log + [e]
    case Compact => log
    case Import(entries) => log + entries
  }

  /** The step drops news, or puts entries below one that has been forgotten. */
  predicate Loses(table: seq<Entry>, log: seq<Entry>, op: Op) {
    match op
    case Record(e) => e.offset != 0 && (DropsNews(table, e) || Forgets(table, log, [e]))
    case Compact => false
    case Import(entries) => Forgets(table, log, entries)
  }

  /** After every step of the run, every query is answered as if nothing had ever been dropped or collapsed. */
  ghost predicate AlwaysFaithful(t: Store, log: seq<Entry>, ops: seq<Op>)
    decreases |ops|
  {
    SameStates(t.table, log) &&
    (ops != [] ==> AlwaysFaithful(StoreAfter(t, ops[0]), LogAfter(log, ops[0]), ops[1..]))
  }

  predicate LosesNothing(t: Store, log: seq<Entry>, ops: seq<Op>)
    decreases |ops|
  {
    ops != [] ==> !Loses(t.table, log, ops[0]) && LosesNothing(StoreAfter(t, ops[0]), LogAfter(log, ops[0]), ops[1..])
  }

  lemma StepStaysInLog(t: Store, log: seq<Entry>, op: Op)
    requires forall x :: x in t.table ==> x in log
    ensures forall x :: x in StoreAfter(t, op).table ==> x in LogAfter(log, op)
  {
    hide Compacted;
    CompactionKeepsMembers(t.table);
  }

  lemma StepIsFaithful(t: Store, log: seq<Entry>, op: Op)
    requires SameStates(t.table, log) && forall x :: x in t.table ==> x in log
    ensures SameStates(StoreAfter(t, op).table, LogAfter(log, op)) <==> !Loses(t.table, log, op)
  {
    hide SameStates, Compacted, DropsNews, Forgets;
    match op
    case Record(e) => RecordedFaithfully(t.table, log, e);
    case Compact => CompactedTable(t.table);
    case Import(entries) => AppendedFaithfully(t.table, log, entries);
  }

  /** Over whole runs of recordings, compactions and imports in any order: the table answers as the log does after every
      step if and only if no step drops news or puts entries below a forgotten one. */
  lemma {:induction false} FaithfulExactly(t: Store, log: seq<Entry>, ops: seq<Op>)
    requires SameStates(t.table, log) && forall x :: x in t.table ==> x in log
    ensures AlwaysFaithful(t, log, ops) <==> LosesNothing(t, log, ops)
    decreases |ops|
  {
    hide SameStates, StoreAfter, LogAfter, Loses;
    if ops != [] {
      StepIsFaithful(t, log, ops[0]);
      StepStaysInLog(t, log, ops[0]);
      var t', log' := StoreAfter(t, ops[0]), LogAfter(log, ops[0]);
      if SameStates(t'.table, log') {
        FaithfulExactly(t', log', ops[1..]);
      } else {
        assert !AlwaysFaithful(t', log', ops[1..]);
      }
    }
  }

  const EmptyStore := Store([], true)

  /** From the empty table. */
  lemma RunIsFaithfulExactly(ops: seq<Op>)
    ensures AlwaysFaithful(EmptyStore, [], ops) <==> LosesNothing(EmptyStore, [], ops)
  {
    hide AlwaysFaithful, LosesNothing;
    SameAsItself([]);
    FaithfulExactly(EmptyStore, [], ops);
  }

  /** News can be dropped in a run from the empty table: B at 5, A at 4, A at 5. */
  lemma NewsIsDropped(a: State, b: State)
    requires a != b
    ensures !LosesNothing(EmptyStore, [], [Record(Entry(5, b)), Record(Entry(4, a)), Record(Entry(5, a))])
  {
    hide Loses, LosesNothing;
    var x, y, z := Entry(5, b), Entry(4, a), Entry(5, a);
    assert [] + [x] == [x] && [x] + [y] == [x, y];
    LosesLater(Store([x, y], false), [x, y], Record(z), []);
    LosesLater(Store([x], false), [x], Record(y), [Record(z)]);
    LosesLater(EmptyStore, [], Record(x), [Record(y), Record(z)]);
    assert [Record(z)] + [] == [Record(z)] && [Record(y)] + [Record(z)] == [Record(y), Record(z)];
    assert [Record(x)] + [Record(y), Record(z)] == [Record(x), Record(y), Record(z)];
    ReplacedIsNews(x, y, z);
  }

  lemma ReplacedIsNews(x: Entry, y: Entry, z: Entry)
    requires 0 < z.offset == x.offset == y.offset + 1 && y.state == z.state != x.state
    ensures Loses([x, y], [x, y], Record(z))
  {
    assert [x, y][..1] == [x];
    assert StateExactlyAt([x, y], z.offset) == StateExactlyAt([x], z.offset) == Some(x.state);
  }

  /** Out of order, compaction forgets: the collapsed table no longer knows that the first state was also in force from
      offset 5, and an entry recorded at 3 then reaches past 5. */
  lemma CompactionForgetsOffsets(a: State, b: State)
    requires a != b
    ensures !LosesNothing(EmptyStore, [], [Record(Entry(1, a)), Record(Entry(5, a)), Compact, Record(Entry(3, b))])
  {
    hide Loses, LosesNothing, Compacted;
    var one, five, three := Entry(1, a), Entry(5, a), Entry(3, b);
    var log := [one, five];
    assert [] + [one] == [one] && [one] + [five] == log;
    CompactPair(one, five);
    CollapsedIsForgotten(one, five, three);
    LosesLater(Store([one], true), log, Record(three), []);
    LosesLater(Store(log, false), log, Compact, [Record(three)]);
    LosesLater(Store([one], false), [one], Record(five), [Compact, Record(three)]);
    LosesLater(EmptyStore, [], Record(one), [Record(five), Compact, Record(three)]);
    assert [Record(three)] + [] == [Record(three)] && [Compact] + [Record(three)] == [Compact, Record(three)];
    assert [Record(five)] + [Compact, Record(three)] == [Record(five), Compact, Record(three)];
    assert [Record(one)] + [Record(five), Compact, Record(three)] == [Record(one), Record(five), Compact, Record(three)];
  }

  lemma CollapsedIsForgotten(x: Entry, y: Entry, e: Entry)
    requires 0 < x.offset < e.offset < y.offset && x.state == y.state != e.state
    ensures Loses([x], [x, y], Record(e))
  {
    hide Latest, DropsNews;
    LatestSnoc([x], y, y.offset);
    assert [x] + [y] == [x, y];
    LatestIsBelow([x], y.offset);
    SingleEntry(e, y.offset);
    assert ForgetsEntry([x], [x, y], Some(e), [x, y][1]);
  }

  lemma LosesLater(t: Store, log: seq<Entry>, op: Op, ops: seq<Op>)
    ensures LosesNothing(t, log, [op] + ops) <==>
            !Loses(t.table, log, op) && LosesNothing(StoreAfter(t, op), LogAfter(log, op), ops)
  {
    assert ([op] + ops)[1..] == ops;
  }

  /** Two entries in order with one state collapse. */
  lemma CompactPair(x: Entry, y: Entry)
    requires x.offset < y.offset && x.state == y.state
    ensures Compacted([x, y]) == [x]
  {
    assert [x, y][..1] == [x] && [x][..0] == [];
    assert StableSort([x]) == [x] by { assert StableSort([x][..0]) == []; }
    assert StableSort([x, y]) == [x] + [y] == [x, y];
    assert Collapsed([x]) == [x] by { assert Collapsed([x][..0]) == []; }
  }

  lemma SortReplaced(x: Entry, y: Entry, z: Entry)
    requires y.offset < x.offset == z.offset
    ensures StableSort([x, y, z]) == [y, x, z]
  {
    assert [x][..0] == [] && [x, y][..1] == [x] && [x, y, z][..2] == [x, y];
    assert StableSort([x]) == Insert([], x) == [x];
    assert Insert([x], y) == Insert([], y) + [x] == [y, x];
    assert StableSort([x, y]) == [y, x];
    assert StableSort([x, y, z]) == [y, x] + [z];
  }

  lemma CollapseReplaced(x: Entry, y: Entry, z: Entry)
    requires y.offset < x.offset == z.offset && x.state != y.state
    ensures Collapsed([y, x, z]) == [y, z]
  {
    assert [y][..0] == [] && [y, x][..1] == [y] && [y, x, z][..2] == [y, x];
    assert Collapsed([y]) == Collapse([], y) == [y];
    assert Collapsed([y, x]) == Collapse([y], x) == [y, x];
  }

  /** Compaction is not idempotent: a state replaced at 5 can leave two entries with one state behind, and only the mark
      keeps a second compaction from forgetting the later one. */
  lemma CompactionIsNotIdempotent(a: State, b: State)
    requires a != b
    ensures var t := [Entry(5, b), Entry(1, a), Entry(5, a)];
            Compacted(t) == [Entry(1, a), Entry(5, a)] && Compacted(Compacted(t)) == [Entry(1, a)]
  {
    var x, y, z := Entry(5, b), Entry(1, a), Entry(5, a);
    SortReplaced(x, y, z);
    CollapseReplaced(x, y, z);
    CompactPair(y, z);
  }

  /** An import as the source manager makes it, behind everything recorded, loses nothing. */
  lemma ImportLosesNothing(table: seq<Entry>, log: seq<Entry>, foreign: seq<Entry>, delta: nat, diagBase: nat)
    requires AllUpTo(log, delta)
    ensures !Loses(table, log, Import(RebaseAll(foreign, delta, diagBase)))
  {
    hide Forgets;
    RebasedAbove(foreign, delta, diagBase);
    NothingForgottenOnTop(table, log, RebaseAll(foreign, delta, diagBase));
  }

  /** It is then as good as importing the foreign recordings themselves. */
  lemma ImportIsOfRecordings(own: seq<Entry>, log: seq<Entry>, foreign: seq<Entry>, foreignLog: seq<Entry>, delta: nat,
                             diagBase: nat)
    requires SameStates(own, log) && AllUpTo(own, delta) && AllUpTo(log, delta) && SameStates(foreign, foreignLog)
    ensures SameStates(own + RebaseAll(foreign, delta, diagBase), log + RebaseAll(foreignLog, delta, diagBase))
  {
    hide StateAt, RebaseAll, AllUpTo;
    var a, b := own + RebaseAll(foreign, delta, diagBase), log + RebaseAll(foreignLog, delta, diagBase);
    forall q: nat ensures StateAt(a, q) == StateAt(b, q) {
      var p := if q < delta then q else q - delta;
      ImportKeepsStates(own, foreign, delta, diagBase, p);
      ImportKeepsStates(log, foreignLog, delta, diagBase, p);
      assert StateAt(own, q) == StateAt(log, q) && StateAt(foreign, p) == StateAt(foreignLog, p);
    }
  }

  // ---------------------------------------------------------------- import

  /** The entries of an imported table in the importer's location space, their diagnostic states renumbered; state 0 is
      the importer's own initial state. */
  function Rebase(e: Entry, delta: nat, diagBase: nat): Entry {
    Entry(e.offset + delta, RebaseState(e.state, diagBase))
  }

  function RebaseState(s: State, diagBase: nat): State {
    State(s.pack, if s.diag == 0 then 0 else diagBase + (s.diag - 1))
  }

  function RebaseAll(table: seq<Entry>, delta: nat, diagBase: nat): seq<Entry> {
    if table == [] then [] else RebaseAll(table[..|table| - 1], delta, diagBase) + [Rebase(table[|table| - 1], delta, diagBase)]
  }

  lemma {:induction false} RebasedAbove(table: seq<Entry>, delta: nat, diagBase: nat)
    ensures forall y :: y in RebaseAll(table, delta, diagBase) ==> delta <= y.offset
  {
    if table != [] {
      RebasedAbove(table[..|table| - 1], delta, diagBase);
    }
  }

  lemma {:induction false} RebasedLookup(table: seq<Entry>, delta: nat, diagBase: nat, q: nat)
    ensures Latest(RebaseAll(table, delta, diagBase), q + delta) ==
            match Latest(table, q) case None => None case Some(e) => Some(Rebase(e, delta, diagBase))
    ensures q < delta ==> Latest(RebaseAll(table, delta, diagBase), q).None?
  {
    if table != [] {
      var init, e := table[..|table| - 1], table[|table| - 1];
      RebasedLookup(init, delta, diagBase, q);
      LatestSnoc(RebaseAll(init, delta, diagBase), Rebase(e, delta, diagBase), q + delta);
      LatestSnoc(RebaseAll(init, delta, diagBase), Rebase(e, delta, diagBase), q);
    }
  }

  /** After an import below whose block nothing of the importer reaches, the importer's own locations keep their state;
      an imported location has the state it had, renumbered, or, in front of the first imported entry, whatever the
      importer had recorded last. */
  lemma ImportKeepsStates(own: seq<Entry>, foreign: seq<Entry>, delta: nat, diagBase: nat, q: nat)
    requires AllUpTo(own, delta)
    ensures q < delta ==> StateAt(own + RebaseAll(foreign, delta, diagBase), q) == StateAt(own, q)
    ensures StateAt(own + RebaseAll(foreign, delta, diagBase), q + delta) ==
            match StateAt(foreign, q)
            case Some(s) => Some(RebaseState(s, diagBase))
            case None => StateAt(own, q + delta)
  {
    hide Latest;
    var rebased := RebaseAll(foreign, delta, diagBase);
    LatestConcat(own, rebased, q);
    LatestConcat(own, rebased, q + delta);
    RebasedLookup(foreign, delta, diagBase, q);
    LatestIsBelow(own, q + delta);
    LatestIsBelow(own, q);
  }

  /** Renumbered diagnostic states are the states they were, except that state 0 becomes the importer's. */
  lemma DiagnosticStatesMove(own: seq<int>, foreign: seq<int>, s: State)
    requires own != [] && s.diag < |foreign|
    ensures var moved := own + foreign[1..];
            var id := RebaseState(s, |own|).diag;
            id < |moved| && moved[id] == if s.diag == 0 then own[0] else foreign[s.diag]
    ensures RebaseState(s, |own|).pack == s.pack
  {
  }

  /** A location of an imported file in front of everything recorded there had no state, and now shows the importer's. */
  lemma ImporterStateLeaks(a: State, foreign: Entry, delta: nat, diagBase: nat)
    requires delta >= 1 && foreign.offset > 1
    ensures StateAt([foreign], 1) == None
    ensures StateAt([Entry(1, a)] + RebaseAll([foreign], delta, diagBase), 1 + delta) == Some(a)
  {
    hide RebaseAll, Latest;
    var own := [Entry(1, a)];
    SingleEntry(foreign, 1);
    SingleEntry(Entry(1, a), 1 + delta);
    ImportKeepsStates(own, [foreign], delta, diagBase, 1);
  }

  lemma SingleEntry(e: Entry, q: nat)
    ensures Latest([e], q) == if e.offset <= q then Some(e) else None
  {
    assert [e][..0] == [];
  }

  // ---------------------------------------------------------------- a worked example

  /** Packing 8 recorded at 10, then 4 at 5: 0 holds in front of 5, 4 from there to 10, and 8 from 10 on. */
  method PackExample() returns (before: nat, between: nat, at: nat)
    ensures before == 0 && between == 4 && at == 8
  {
    hide Latest, StateAt, StoreAfter;
    var t := new PragmaTable(0);
    t.RecordPragmaState(10, 8, 0);
    t.RecordPragmaState(5, 4, 0);
    var x, y := Entry(10, State(8, 0)), Entry(5, State(4, 0));
    ExampleTable(x, y);
    assert t.table == [x, y];
    before := t.GetPackAlignment(4);
    between := t.GetPackAlignment(9);
    at := t.GetPackAlignment(10);
  }

  lemma ExampleTable(x: Entry, y: Entry)
    requires x == Entry(10, State(8, 0)) && y == Entry(5, State(4, 0))
    ensures StoreAfter(StoreAfter(Store([], true), Record(x)), Record(y)).table == [x, y]
    ensures StateAt([x, y], 4) == None && StateAt([x, y], 9) == Some(y.state) && StateAt([x, y], 10) == Some(x.state)
  {
    assert [] + [x] == [x] && [x] + [y] == [x, y];
    forall q | q in {4, 9, 10} ensures StateAt([x, y], q) == if q == 4 then None else if q == 9 then Some(y.state) else Some(x.state) {
      SingleEntry(x, q);
      LatestSnoc([x], y, q);
    }
  }
}
