/** The source-location space: one number line cut into file and macro-expansion entries, the cached
    entry lookup, logical locations through expansion chains, and the import of a foreign manager. */
module SourceLocations {
  import opened Search
  import opened Phase2

  /** An offset; 0 is the invalid location. Offsets are not bounded. */
  type Loc = nat

  datatype LineDirective = LineDirective(lineIndex: nat, lineNumber: nat, fileName: string, hasFileName: bool)

  datatype FileSrc = FileSrc(name: string, buffer: string, lineOffsets: seq<nat>, changeLists: seq<MappingStep>,
                             lineDirectives: seq<LineDirective>)

  datatype Entry =
    | FileEntry(offset: Loc, fileId: nat)
    | Expansion(offset: Loc, definition: Loc, caller: Loc)

  datatype LogicalLocation = LogicalLocation(file: string, line: nat, column: nat)

  // ---------------------------------------------------------------- lines and columns

  /** The offsets at which lines start: 0, and one past each line feed. */
  function LineStarts(buffer: string): seq<nat> {
    if buffer == "" then [0]
    else
      var before := LineStarts(buffer[..|buffer| - 1]);
      if buffer[|buffer| - 1] == '\n' then before + [|buffer|] else before
  }

  method BuildLineOffsets(buffer: string) returns (lineOffsets: seq<nat>)
    ensures lineOffsets == LineStarts(buffer)
  {
    lineOffsets := [0];
    for i := 0 to |buffer|
      invariant lineOffsets == LineStarts(buffer[..i])
    {
      assert buffer[..i + 1][..i] == buffer[..i];
      if buffer[i] == '\n' {
        lineOffsets := lineOffsets + [i + 1];
      }
    }
    assert buffer[..|buffer|] == buffer;
  }

  /** How many line feeds stand before an offset, and where the line around it starts. */
  function Newlines(buffer: string): nat {
    if buffer == "" then 0
    else Newlines(buffer[..|buffer| - 1]) + (if buffer[|buffer| - 1] == '\n' then 1 else 0)
  }

  function LineStart(buffer: string): (n: nat)
    ensures n <= |buffer|
  {
    if buffer == "" then 0
    else if buffer[|buffer| - 1] == '\n' then |buffer|
    else LineStart(buffer[..|buffer| - 1])
  }

  function Before(buffer: string, off: nat): string {
    if off <= |buffer| then buffer[..off] else buffer
  }

  lemma {:induction false} LineStartsAreSorted(buffer: string)
    ensures LineStarts(buffer) != [] && LineStarts(buffer)[0] == 0
    ensures forall i, j :: 0 <= i < j < |LineStarts(buffer)| ==> LineStarts(buffer)[i] < LineStarts(buffer)[j]
    ensures forall i :: 0 <= i < |LineStarts(buffer)| ==> LineStarts(buffer)[i] <= |buffer|
    ensures |LineStarts(buffer)| == Newlines(buffer) + 1
    ensures LineStarts(buffer)[|LineStarts(buffer)| - 1] == LineStart(buffer)
  {
    if buffer != "" {
      LineStartsAreSorted(buffer[..|buffer| - 1]);
    }
  }

  /** A longer text only adds later line starts. */
  lemma {:induction false} LineStartsGrow(buffer: string, n: nat)
    requires n <= |buffer|
    ensures LineStarts(buffer[..n]) <= LineStarts(buffer)
    ensures forall i :: |LineStarts(buffer[..n])| <= i < |LineStarts(buffer)| ==> n < LineStarts(buffer)[i]
    decreases |buffer|
  {
    if n < |buffer| {
      var init := buffer[..|buffer| - 1];
      assert init[..n] == buffer[..n];
      LineStartsGrow(init, n);
    } else {
      assert buffer[..n] == buffer;
    }
  }

  lemma CutIsUnique(s: seq<nat>, off: nat, k: nat, m: nat)
    requires k <= |s| && m <= |s|
    requires (forall i :: 0 <= i < k ==> s[i] <= off) && (forall i :: k <= i < |s| ==> off < s[i])
    requires (forall i :: 0 <= i < m ==> s[i] <= off) && (forall i :: m <= i < |s| ==> off < s[i])
    ensures k == m
  {
    var atK := if k < |s| then s[k] else 0;
    var atM := if m < |s| then s[m] else 0;
  }

  /** The line table lookup counts line feeds: k leading starts not above off means k - 1 line feeds before off,
      and the last of them is where the line starts. */
  lemma LookupCountsNewlines(buffer: string, off: nat, k: nat)
    requires k <= |LineStarts(buffer)|
    requires forall i :: 0 <= i < k ==> LineStarts(buffer)[i] <= off
    requires forall i :: k <= i < |LineStarts(buffer)| ==> off < LineStarts(buffer)[i]
    ensures k == Newlines(Before(buffer, off)) + 1
    ensures LineStarts(buffer)[k - 1] == LineStart(Before(buffer, off))
  {
    var starts, prefix := LineStarts(buffer), Before(buffer, off);
    LineStartsAreSorted(buffer);
    LineStartsAreSorted(prefix);
    var m := |LineStarts(prefix)|;
    if off < |buffer| {
      LineStartsGrow(buffer, off);
      assert LineStarts(prefix) <= starts;
    } else {
      assert prefix == buffer;
    }
    assert forall i :: 0 <= i < m ==> starts[i] == LineStarts(prefix)[i];
    CutIsUnique(starts, off, k, m);
  }

  // ---------------------------------------------------------------- the meaning of a location

  /** The last step not above l, counted from the back. */
  function LastStep(steps: seq<MappingStep>, l: nat): MappingStep
    requires steps != []
  {
    if |steps| == 1 || steps[|steps| - 1].logical <= l then steps[|steps| - 1] else LastStep(steps[..|steps| - 1], l)
  }

  /** The physical offset of a logical offset in a file. */
  function RealOffset(f: FileSrc, local: nat): int {
    if f.changeLists == [] then local
    else
      var step := LastStep(f.changeLists, local);
      step.physical + (local - step.logical)
  }

  /** #line directives apply in order while their line is not after the wanted one. */
  function ActiveDirective(ds: seq<LineDirective>, lineIndex: nat): (a: seq<LineDirective>)
    ensures a != [] ==> a[0].lineIndex <= lineIndex
  {
    if ds == [] || lineIndex < ds[0].lineIndex then []
    else
      var later := ActiveDirective(ds[1..], lineIndex);
      if later == [] then [ds[0]] else later
  }

  /** File, line and column of a physical offset: line feeds counted, #line applied. */
  function FilePosition(f: FileSrc, off: nat): LogicalLocation {
    var text := Before(f.buffer, off);
    var lineIndex := Newlines(text);
    var column := off - LineStart(text) + 1;
    var active := ActiveDirective(f.lineDirectives, lineIndex);
    if active == [] then LogicalLocation(f.name, lineIndex + 1, column)
    else
      LogicalLocation(if active[0].hasFileName then active[0].fileName else f.name,
                      active[0].lineNumber + (lineIndex - active[0].lineIndex), column)
  }

  /** The column counts from 1 at the start of the line: between there and the offset stands no line feed, and in front of
      it stands one, or nothing. The line, where no #line is in force, is one more than the line feeds in front. */
  lemma PositionIsOnItsLine(f: FileSrc, off: nat)
    requires off <= |f.buffer|
    ensures var where := FilePosition(f, off);
            && 1 <= where.column <= off + 1
            && (var start := off - (where.column - 1);
                '\n' !in f.buffer[start..off] && (start == 0 || f.buffer[start - 1] == '\n'))
            && (f.lineDirectives == [] ==>
                  where.file == f.name && where.line == 1 + |set i | 0 <= i < off && f.buffer[i] == '\n'|)
  {
    var text := f.buffer[..off];
    LineStartsBehindFeed(text);
    NewlinesCount(text);
    var start := LineStart(text);
    assert f.buffer[start..off] == text[start..];
    assert (set i | 0 <= i < off && f.buffer[i] == '\n') == (set i | 0 <= i < |text| && text[i] == '\n');
  }

  lemma {:induction false} LineStartsBehindFeed(text: string)
    ensures '\n' !in text[LineStart(text)..] && (LineStart(text) == 0 || text[LineStart(text) - 1] == '\n')
  {
    if text != "" && text[|text| - 1] != '\n' {
      var init := text[..|text| - 1];
      LineStartsBehindFeed(init);
      assert text[LineStart(text)..] == init[LineStart(text)..] + [text[|text| - 1]];
    }
  }

  lemma {:induction false} NewlinesCount(text: string)
    ensures Newlines(text) == |set i | 0 <= i < |text| && text[i] == '\n'|
  {
    var feeds := set i | 0 <= i < |text| && text[i] == '\n';
    if text == "" {
      assert feeds == {};
    } else {
      var last, init := |text| - 1, text[..|text| - 1];
      NewlinesCount(init);
      var before := set i | 0 <= i < |init| && init[i] == '\n';
      assert feeds == if text[last] == '\n' then before + {last} else before;
    }
  }

  /** With #line directives in order, the last one not behind the offset's line counts it: its own number on the line it is
      for, one more for each line after that, and the name it gives, if it gives one. */
  lemma DirectiveCountsLines(f: FileSrc, off: nat, k: nat)
    requires off <= |f.buffer| && k < |f.lineDirectives|
    requires forall i, j :: 0 <= i < j < |f.lineDirectives| ==> f.lineDirectives[i].lineIndex <= f.lineDirectives[j].lineIndex
    requires var plain := FilePosition(f.(lineDirectives := []), off).line - 1;
             f.lineDirectives[k].lineIndex <= plain && (k + 1 < |f.lineDirectives| ==> plain < f.lineDirectives[k + 1].lineIndex)
    ensures var d, where, plain := f.lineDirectives[k], FilePosition(f, off), FilePosition(f.(lineDirectives := []), off);
            && where.line == d.lineNumber + (plain.line - 1 - d.lineIndex) && where.column == plain.column
            && where.file == if d.hasFileName then d.fileName else f.name
  {
    ActiveIsLast(f.lineDirectives, Newlines(Before(f.buffer, off)), k);
  }

  lemma {:induction false} ActiveIsLast(ds: seq<LineDirective>, lineIndex: nat, k: nat)
    requires k < |ds| && forall i, j :: 0 <= i < j < |ds| ==> ds[i].lineIndex <= ds[j].lineIndex
    requires ds[k].lineIndex <= lineIndex && (k + 1 < |ds| ==> lineIndex < ds[k + 1].lineIndex)
    ensures ActiveDirective(ds, lineIndex) == [ds[k]]
  {
    if k > 0 {
      assert ds[0].lineIndex <= ds[k].lineIndex;
      ActiveIsLast(ds[1..], lineIndex, k - 1);
    }
  }

  ghost predicate FileOk(f: FileSrc) {
    && f.lineOffsets == LineStarts(f.buffer)
    && (f.changeLists != [] ==> StepsOk(f.changeLists) && 0 <= Shift(f.changeLists[0]))
  }

  /** Entries in order from 1 up, all below next; files known; and every expansion's caller strictly below it. */
  ghost predicate TableOk(entries: seq<Entry>, files: seq<FileSrc>, next: Loc) {
    if entries == [] then next == 1
    else
      var last := entries[|entries| - 1];
      var init := entries[..|entries| - 1];
      && last.offset < next
      && TableOk(init, files, last.offset)
      && (last.FileEntry? ==> last.fileId < |files| && FileOk(files[last.fileId]))
      && (last.Expansion? ==> last.caller < last.offset)
  }

  /** The linear search: the last entry that starts at or below the location. */
  function Find(entries: seq<Entry>, loc: Loc): (i: nat)
    requires entries != []
    ensures i < |entries|
  {
    if |entries| == 1 || entries[|entries| - 1].offset <= loc then |entries| - 1
    else Find(entries[..|entries| - 1], loc)
  }

  lemma {:induction false} TableIsSorted(entries: seq<Entry>, files: seq<FileSrc>, next: Loc)
    requires TableOk(entries, files, next)
    ensures entries != [] ==> entries[0].offset == 1
    ensures next >= 1 && (entries == [] ==> next == 1)
    ensures forall i :: 0 <= i < |entries| ==> entries[i].offset < next
    ensures forall i, j :: 0 <= i < j < |entries| ==> entries[i].offset < entries[j].offset
    ensures forall i :: 0 <= i < |entries| && entries[i].Expansion? ==> entries[i].caller < entries[i].offset
    ensures forall i :: 0 <= i < |entries| && entries[i].FileEntry? ==>
              entries[i].fileId < |files| && FileOk(files[entries[i].fileId])
  {
    if entries != [] {
      hide FileOk;
      var init := entries[..|entries| - 1];
      TableIsSorted(init, files, entries[|entries| - 1].offset);
      forall i | 0 <= i < |entries| - 1 ensures entries[i] == init[i] {
      }
    }
  }

  lemma {:induction false} FindIsBelow(entries: seq<Entry>, loc: Loc)
    requires entries != [] && entries[0].offset <= loc
    ensures entries[Find(entries, loc)].offset <= loc
  {
    if |entries| > 1 && loc < entries[|entries| - 1].offset {
      FindIsBelow(entries[..|entries| - 1], loc);
    }
  }

  /** Any index that starts at or below the location, and whose successor starts above it, is the search's answer. */
  lemma {:induction false} FindIsUnique(entries: seq<Entry>, loc: Loc, i: nat)
    requires i < |entries| && entries[i].offset <= loc
    requires forall j :: i < j < |entries| ==> loc < entries[j].offset
    ensures Find(entries, loc) == i
  {
    if i < |entries| - 1 {
      FindIsUnique(entries[..|entries| - 1], loc, i);
    }
  }

  /** The location a user is shown: through expansions to their callers, down to a file. */
  ghost function Logical(entries: seq<Entry>, files: seq<FileSrc>, next: Loc, loc: Loc): LogicalLocation
    requires TableOk(entries, files, next)
    decreases loc
  {
    if loc == 0 || entries == [] then LogicalLocation("", 0, 0)
    else
      TableIsSorted(entries, files, next);
      FindIsBelow(entries, loc);
      var e := entries[Find(entries, loc)];
      if e.Expansion? then Logical(entries, files, next, e.caller)
      else
        RealOffsetIsNat(files[e.fileId], loc - e.offset);
        FilePosition(files[e.fileId], RealOffset(files[e.fileId], loc - e.offset))
  }

  /** The file a location is reported in, and the logical offset there. */
  datatype Place = Nowhere | In(fileId: nat, local: nat)

  ghost function Home(entries: seq<Entry>, files: seq<FileSrc>, next: Loc, loc: Loc): Place
    requires TableOk(entries, files, next)
    decreases loc
  {
    if loc == 0 || entries == [] then Nowhere
    else
      TableIsSorted(entries, files, next);
      FindIsBelow(entries, loc);
      var e := entries[Find(entries, loc)];
      if e.Expansion? then Home(entries, files, next, e.caller) else In(e.fileId, loc - e.offset)
  }

  /** What a user is shown is the position of that offset. */
  lemma {:induction false} ShownAtHome(entries: seq<Entry>, files: seq<FileSrc>, next: Loc, loc: Loc)
    requires TableOk(entries, files, next)
    ensures match Home(entries, files, next, loc)
            case Nowhere => Logical(entries, files, next, loc) == LogicalLocation("", 0, 0)
            case In(id, local) =>
              id < |files| && FileOk(files[id]) && RealOffset(files[id], local) >= 0
              && Logical(entries, files, next, loc) == FilePosition(files[id], RealOffset(files[id], local))
    decreases loc
  {
    hide TableOk, FilePosition, RealOffset, FileOk;
    TableIsSorted(entries, files, next);
    if loc != 0 && entries != [] {
      FindIsBelow(entries, loc);
      var e := entries[Find(entries, loc)];
      if e.Expansion? {
        ShownAtHome(entries, files, next, e.caller);
      } else {
        RealOffsetIsNat(files[e.fileId], loc - e.offset);
      }
    }
  }

  /** Files do not decide where home is. */
  lemma {:induction false} HomeStays(entries: seq<Entry>, files: seq<FileSrc>, files': seq<FileSrc>, next: Loc, loc: Loc)
    requires TableOk(entries, files, next) && TableOk(entries, files', next)
    ensures Home(entries, files', next, loc) == Home(entries, files, next, loc)
    decreases loc
  {
    hide TableOk;
    TableIsSorted(entries, files, next);
    if loc != 0 && entries != [] {
      FindIsBelow(entries, loc);
      var e := entries[Find(entries, loc)];
      if e.Expansion? {
        HomeStays(entries, files, files', next, e.caller);
      }
    }
  }

  lemma {:induction false} LastStepFits(steps: seq<MappingStep>, l: nat)
    requires steps != [] && StepsOk(steps)
    ensures LastStep(steps, l) in steps && LastStep(steps, l).logical <= l
    ensures exists i: nat :: StepAt(steps, l, i) && LastStep(steps, l) == steps[i]
  {
    if |steps| == 1 || LastOf(steps).logical <= l {
      assert StepAt(steps, l, |steps| - 1);
    } else {
      var init := steps[..|steps| - 1];
      LastStepFits(init, l);
      var i: nat :| StepAt(init, l, i) && LastStep(init, l) == init[i];
      assert StepAt(steps, l, i);
    }
  }

  lemma RealOffsetIsNat(f: FileSrc, local: nat)
    requires FileOk(f)
    ensures 0 <= RealOffset(f, local)
    ensures f.changeLists != [] ==> Maps(f.changeLists, local, RealOffset(f, local))
  {
    if f.changeLists != [] {
      LastStepFits(f.changeLists, local);
      var i: nat :| StepAt(f.changeLists, local, i) && LastStep(f.changeLists, local) == f.changeLists[i];
      if i > 0 {
        StepsRise(f.changeLists, 0, i);
      }
    }
  }

  // ---------------------------------------------------------------- growth and import

  lemma {:induction false} FindInPrefix(entries: seq<Entry>, more: seq<Entry>, loc: Loc)
    requires entries != [] && forall j :: 0 <= j < |more| ==> loc < more[j].offset
    ensures Find(entries + more, loc) == Find(entries, loc)
    decreases |more|
  {
    if more == [] {
      assert entries + more == entries;
    } else {
      var init := more[..|more| - 1];
      assert (entries + more)[..|entries + more| - 1] == entries + init;
      FindInPrefix(entries, init, loc);
    }
  }

  /** New entries above a location do not change what it means. */
  lemma {:induction false} GrowthKeepsLocations(entries: seq<Entry>, files: seq<FileSrc>, next: Loc,
                                               more: seq<Entry>, moreFiles: seq<FileSrc>, next': Loc, loc: Loc)
    requires TableOk(entries, files, next) && TableOk(entries + more, files + moreFiles, next')
    requires loc < next && forall j :: 0 <= j < |more| ==> next <= more[j].offset
    ensures Logical(entries + more, files + moreFiles, next', loc) == Logical(entries, files, next, loc)
    decreases loc
  {
    TableIsSorted(entries, files, next);
    if loc != 0 && entries != [] {
      hide TableOk, FilePosition, FileOk;
      FindInPrefix(entries, more, loc);
      FindIsBelow(entries, loc);
      var e := entries[Find(entries, loc)];
      assert (entries + more)[Find(entries, loc)] == e;
      if e.Expansion? {
        GrowthKeepsLocations(entries, files, next, more, moreFiles, next', e.caller);
      }
    }
  }

  function Rebase(loc: Loc, delta: nat): Loc {
    if loc == 0 then 0 else loc + delta
  }

  /** The foreign entries on the importing side: offsets and callers moved up, every file entry on a clone. */
  function Imported(source: seq<Entry>, delta: nat, fileBase: nat): seq<Entry> {
    if source == [] then []
    else
      var init := source[..|source| - 1];
      var e := source[|source| - 1];
      Imported(init, delta, fileBase) +
      [Moved(e, delta, fileBase + |Clones(init)|)]
  }

  /** One foreign entry on the importing side; a file entry goes to the given clone. */
  function Moved(e: Entry, delta: nat, clone: nat): Entry {
    match e
    case FileEntry(off, _) => FileEntry(off + delta, clone)
    case Expansion(off, def, caller) => Expansion(off + delta, Rebase(def, delta), Rebase(caller, delta))
  }

  /** The file ids cloned, in order. */
  function Clones(source: seq<Entry>): seq<nat> {
    if source == [] then []
    else
      var e := source[|source| - 1];
      Clones(source[..|source| - 1]) + (if e.FileEntry? then [e.fileId] else [])
  }

  ghost predicate KnownFiles(ids: seq<nat>, files: seq<FileSrc>) {
    forall i :: 0 <= i < |ids| ==> ids[i] < |files| && FileOk(files[ids[i]])
  }

  ghost function Pick(ids: seq<nat>, files: seq<FileSrc>): seq<FileSrc>
    requires KnownFiles(ids, files)
  {
    seq(|ids|, i requires 0 <= i < |ids| => files[ids[i]])
  }

  lemma {:induction false} ImportedShape(source: seq<Entry>, delta: nat, fileBase: nat)
    ensures |Imported(source, delta, fileBase)| == |source|
    ensures forall i :: 0 <= i < |source| ==>
              Imported(source, delta, fileBase)[i].offset == source[i].offset + delta
              && (source[i].Expansion? ==>
                    Imported(source, delta, fileBase)[i]
                    == Expansion(source[i].offset + delta, Rebase(source[i].definition, delta),
                                 Rebase(source[i].caller, delta)))
    decreases |source|
  {
    if source != [] {
      var init := source[..|source| - 1];
      ImportedShape(init, delta, fileBase);
      forall i | 0 <= i < |init|
        ensures Imported(source, delta, fileBase)[i] == Imported(init, delta, fileBase)[i] && source[i] == init[i]
      {
      }
    }
  }

  lemma {:induction false} ClonesAreKnown(source: seq<Entry>, files: seq<FileSrc>, next: Loc)
    requires TableOk(source, files, next)
    ensures KnownFiles(Clones(source), files)
  {
    if source != [] {
      ClonesAreKnown(source[..|source| - 1], files, source[|source| - 1].offset);
    }
  }

  /** A cloned file entry refers to the same file contents. */
  lemma {:induction false} ClonedFile(source: seq<Entry>, delta: nat, fileBase: nat, i: nat)
    requires i < |source| && source[i].FileEntry?
    ensures |Imported(source, delta, fileBase)| == |source|
    ensures Imported(source, delta, fileBase)[i].FileEntry?
    ensures var id := Imported(source, delta, fileBase)[i].fileId;
            fileBase <= id < fileBase + |Clones(source)| && Clones(source)[id - fileBase] == source[i].fileId
    decreases |source|
  {
    ImportedShape(source, delta, fileBase);
    var init := source[..|source| - 1];
    ImportedShape(init, delta, fileBase);
    if i < |source| - 1 {
      ClonedFile(init, delta, fileBase, i);
      assert Imported(source, delta, fileBase)[i] == Imported(init, delta, fileBase)[i];
    }
  }

  lemma ClonesSnoc(source: seq<Entry>)
    requires source != []
    ensures |Clones(source)| == |Clones(source[..|source| - 1])| + (if source[|source| - 1].FileEntry? then 1 else 0)
  {
  }

  lemma TableSnoc(entries: seq<Entry>, files: seq<FileSrc>, e: Entry, next: Loc)
    requires TableOk(entries, files, e.offset) && e.offset < next
    requires e.FileEntry? ==> e.fileId < |files| && FileOk(files[e.fileId])
    requires e.Expansion? ==> e.caller < e.offset
    ensures TableOk(entries + [e], files, next)
  {
    assert (entries + [e])[..|entries|] == entries;
  }

  /** The importing table stays in order. */
  lemma {:induction false} ImportKeepsTable(entries: seq<Entry>, files: seq<FileSrc>, next: Loc,
                                           source: seq<Entry>, sourceFiles: seq<FileSrc>, sourceNext: Loc,
                                           allFiles: seq<FileSrc>)
    requires TableOk(entries, files, next) && TableOk(source, sourceFiles, sourceNext)
    requires files <= allFiles
    requires |files| + |Clones(source)| <= |allFiles|
    requires forall i :: |files| <= i < |files| + |Clones(source)| ==> FileOk(allFiles[i])
    ensures next >= 1 && sourceNext >= 1
    ensures TableOk(entries + Imported(source, next - 1, |files|), allFiles, next - 1 + sourceNext)
    decreases |source|
  {
    hide FileOk, Clones, TableOk, Imported;
    NextIsPositive(entries, files, next);
    NextIsPositive(source, sourceFiles, sourceNext);
    if source == [] {
      assert source[..0] == source;
      NothingMoves(entries, next - 1, |files|);
      NoEntries(sourceFiles, sourceNext);
      MoreFilesKeepTable(entries, files, allFiles, next);
    } else {
      var init := source[..|source| - 1];
      var e := source[|source| - 1];
      ClonesSnoc(source);
      TableLast(source, sourceFiles, sourceNext);
      ImportKeepsTable(entries, files, next, init, sourceFiles, e.offset, allFiles);
      ImportedSnoc(entries, source, next - 1, |files|);
      TableSnoc(entries + Imported(init, next - 1, |files|), allFiles, Moved(e, next - 1, |files| + |Clones(init)|),
                next - 1 + sourceNext);
    }
  }

  lemma NextIsPositive(entries: seq<Entry>, files: seq<FileSrc>, next: Loc)
    requires TableOk(entries, files, next)
    ensures next >= 1
  {
  }

  lemma NoEntries(files: seq<FileSrc>, next: Loc)
    requires TableOk([], files, next)
    ensures next == 1
  {
  }

  lemma NothingMoves(entries: seq<Entry>, delta: nat, fileBase: nat)
    ensures entries + Imported([], delta, fileBase) == entries
  {
  }

  lemma TableLast(entries: seq<Entry>, files: seq<FileSrc>, next: Loc)
    requires entries != [] && TableOk(entries, files, next)
    ensures var last := entries[|entries| - 1];
            && last.offset < next && TableOk(entries[..|entries| - 1], files, last.offset)
            && (last.FileEntry? ==> last.fileId < |files| && FileOk(files[last.fileId]))
            && (last.Expansion? ==> last.caller < last.offset)
  {
  }

  lemma ImportedSnoc(entries: seq<Entry>, source: seq<Entry>, delta: nat, fileBase: nat)
    requires source != []
    ensures var init := source[..|source| - 1];
            entries + Imported(source, delta, fileBase)
            == (entries + Imported(init, delta, fileBase))
               + [Moved(source[|source| - 1], delta, fileBase + |Clones(init)|)]
  {
  }

  lemma {:induction false} MoreFilesKeepTable(entries: seq<Entry>, files: seq<FileSrc>, allFiles: seq<FileSrc>, next: Loc)
    requires TableOk(entries, files, next) && files <= allFiles
    ensures TableOk(entries, allFiles, next)
  {
    if entries != [] {
      MoreFilesKeepTable(entries[..|entries| - 1], files, allFiles, entries[|entries| - 1].offset);
    }
  }

  lemma {:induction false} FindShifted(entries: seq<Entry>, source: seq<Entry>, delta: nat, fileBase: nat, loc: Loc)
    requires source != [] && source[0].offset <= loc
    ensures |Imported(source, delta, fileBase)| == |source|
    ensures Find(entries + Imported(source, delta, fileBase), loc + delta) == |entries| + Find(source, loc)
    decreases |source|
  {
    ImportedShape(source, delta, fileBase);
    var moved := Imported(source, delta, fileBase);
    assert (entries + moved)[|entries + moved| - 1].offset == source[|source| - 1].offset + delta;
    if loc < source[|source| - 1].offset {
      var init := source[..|source| - 1];
      FindShifted(entries, init, delta, fileBase, loc);
      assert (entries + moved)[..|entries + moved| - 1] == entries + Imported(init, delta, fileBase);
    }
  }

  /** After an import, a foreign location moved up by delta shows what it showed in its own manager, through whole
      expansion chains. */
  lemma {:induction false} ImportMovesLocations(entries: seq<Entry>, files: seq<FileSrc>, next: Loc,
                                               source: seq<Entry>, sourceFiles: seq<FileSrc>, sourceNext: Loc, loc: Loc)
    requires TableOk(entries, files, next) && TableOk(source, sourceFiles, sourceNext)
    requires KnownFiles(Clones(source), sourceFiles)
    requires next >= 1 && sourceNext >= 1
    requires TableOk(entries + Imported(source, next - 1, |files|), files + Pick(Clones(source), sourceFiles),
                     next - 1 + sourceNext)
    requires loc < sourceNext
    ensures Logical(entries + Imported(source, next - 1, |files|), files + Pick(Clones(source), sourceFiles),
                    next - 1 + sourceNext, Rebase(loc, next - 1))
         == Logical(source, sourceFiles, sourceNext, loc)
    decreases loc
  {
    hide FilePosition, FileOk, TableOk, Imported, Clones;
    var moved := Imported(source, next - 1, |files|);
    ImportedShape(source, next - 1, |files|);
    TableIsSorted(source, sourceFiles, sourceNext);
    if loc != 0 && source != [] {
      FindIsBelow(source, loc);
      FindShifted(entries, source, next - 1, |files|, loc);
      var i := Find(source, loc);
      assert (entries + moved)[|entries| + i] == moved[i];
      if source[i].Expansion? {
        ImportMovesLocations(entries, files, next, source, sourceFiles, sourceNext, source[i].caller);
      } else {
        ClonedFile(source, next - 1, |files|, i);
      }
    }
  }

  // ---------------------------------------------------------------- the manager as the source keeps it

  class SourceManager {
    var slocEntryTable: seq<Entry>
    var files: seq<FileSrc>
    var nextOffset: Loc
    var lastEntryLookup: nat

    ghost predicate Valid()
      reads this
    {
      TableOk(slocEntryTable, files, nextOffset)
    }

    ghost function LogicalOf(loc: Loc): LogicalLocation
      requires Valid()
      reads this
    {
      Logical(slocEntryTable, files, nextOffset, loc)
    }

    ghost function HomeOf(loc: Loc): Place
      requires Valid()
      reads this
    {
      Home(slocEntryTable, files, nextOffset, loc)
    }

    constructor ()
      ensures Valid() && slocEntryTable == [] && files == [] && nextOffset == 1
    {
      slocEntryTable, files, nextOffset, lastEntryLookup := [], [], 1, 0;
    }

    method CreateFileEntry(name: string, content: string) returns (fileId: nat)
      requires Valid()
      modifies `slocEntryTable, `files, `nextOffset
      ensures Valid()
      ensures fileId == |old(files)|
      ensures files == old(files) + [FileSrc(name, content, LineStarts(content), [], [])]
      ensures slocEntryTable == old(slocEntryTable) + [FileEntry(old(nextOffset), fileId)]
      ensures nextOffset == old(nextOffset) + |content| + 1
      ensures forall loc :: 0 <= loc < old(nextOffset) ==> LogicalOf(loc) == old(LogicalOf(loc))
    {
      var lineOffsets := BuildLineOffsets(content);
      fileId := |files|;
      var f := FileSrc(name, content, lineOffsets, [], []);
      Appended(slocEntryTable, files, nextOffset, FileEntry(nextOffset, fileId), [f], nextOffset + |content| + 1);
      files := files + [f];
      slocEntryTable := slocEntryTable + [FileEntry(nextOffset, fileId)];
      nextOffset := nextOffset + |content| + 1;
    }

    /** One entry for an expansion. The space stays well founded exactly if the caller's location has been handed out;
        then every location of the entry is reported where its caller is, and no other location changes its meaning. */
    method CreateMacroEntry(def: Loc, caller: Loc, size: nat) returns (base: Loc)
      requires Valid()
      modifies `slocEntryTable, `nextOffset
      ensures base == old(nextOffset) && nextOffset == old(nextOffset) + size + 1
      ensures slocEntryTable == old(slocEntryTable) + [Expansion(base, def, caller)]
      ensures Valid() <==> caller < old(nextOffset)
      ensures Valid() ==> forall loc :: 0 <= loc < old(nextOffset) ==> LogicalOf(loc) == old(LogicalOf(loc))
      ensures Valid() ==> forall loc :: base <= loc < nextOffset ==> LogicalOf(loc) == old(LogicalOf(caller))
    {
      base := nextOffset;
      assert slocEntryTable == (slocEntryTable + [Expansion(base, def, caller)])[..|slocEntryTable|];
      if caller < nextOffset {
        Appended(slocEntryTable, files, nextOffset, Expansion(base, def, caller), [], nextOffset + size + 1);
        assert files + [] == files;
        ReportedAtCallers(slocEntryTable, files, nextOffset, Expansion(base, def, caller), nextOffset + size + 1);
      }
      slocEntryTable := slocEntryTable + [Expansion(base, def, caller)];
      nextOffset := nextOffset + size + 1;
    }

    /** Line splicing of a file: the lexer gets the spliced text, and from now on every location that leads to a logical
        index of the file is reported at the physical byte it came from, the one behind the text at the end of the file.
        No location changes its home, and no location of another file what it shows. */
    method PreprocessFile(fileId: nat) returns (text: string)
      requires Valid() && fileId < |files|
      modifies `files
      ensures Valid()
      ensures text == Splice(Fold(old(files[fileId].buffer)))
      ensures |files| == |old(files)| && forall i :: 0 <= i < |files| && i != fileId ==> files[i] == old(files[i])
      ensures files[fileId] == old(files[fileId]).(changeLists := files[fileId].changeLists)
      ensures var units := Units(old(files[fileId].buffer), 0);
              |units| == |text| && forall k :: 0 <= k < |units| ==> RealOffset(files[fileId], k) == units[k].origin
      ensures forall loc: Loc :: HomeOf(loc) == old(HomeOf(loc))
                && SplicedAt(old(LogicalOf(loc)), LogicalOf(loc), HomeOf(loc), old(files[fileId]), fileId)
    {
      hide TableOk, Units, Describes, RealOffset, Logical, Home, SplicedAt;
      var f := files[fileId];
      var buffer := new char[|f.buffer|](i requires 0 <= i < |f.buffer| => f.buffer[i]);
      assert buffer[..] == f.buffer;
      var size, map_ := InitialPreproc(buffer);
      text := buffer[..size];
      ghost var before := files;
      files := files[fileId := f.(changeLists := map_)];
      SplicedFileIsOk(f, map_);
      FilesImproved(slocEntryTable, before, files, nextOffset, fileId);
      forall loc: Loc
        ensures Home(slocEntryTable, files, nextOffset, loc) == Home(slocEntryTable, before, nextOffset, loc)
        ensures SplicedAt(Logical(slocEntryTable, before, nextOffset, loc), Logical(slocEntryTable, files, nextOffset, loc),
                          Home(slocEntryTable, files, nextOffset, loc), f, fileId) {
        SplicedHome(slocEntryTable, before, nextOffset, fileId, map_, loc);
      }
    }

    /** A #line directive is added behind those before it. If it is not in front of them, the file's locations from its
        line on are counted from it, and all others show what they did. */
    method AddLineDirective(fileId: nat, d: LineDirective)
      requires Valid() && fileId < |files|
      modifies `files
      ensures Valid()
      ensures files == old(files)[fileId := old(files[fileId]).(lineDirectives := old(files[fileId].lineDirectives) + [d])]
      ensures forall loc: Loc :: HomeOf(loc) == old(HomeOf(loc))
                && DirectedAt(old(LogicalOf(loc)), LogicalOf(loc), HomeOf(loc), old(files[fileId]), fileId, d)
    {
      hide TableOk, Logical, Home, DirectedAt;
      ghost var before := files;
      files := files[fileId := files[fileId].(lineDirectives := files[fileId].lineDirectives + [d])];
      FilesImproved(slocEntryTable, before, files, nextOffset, fileId);
      forall loc: Loc
        ensures Home(slocEntryTable, files, nextOffset, loc) == Home(slocEntryTable, before, nextOffset, loc)
        ensures DirectedAt(Logical(slocEntryTable, before, nextOffset, loc), Logical(slocEntryTable, files, nextOffset, loc),
                           Home(slocEntryTable, files, nextOffset, loc), before[fileId], fileId, d) {
        DirectedHome(slocEntryTable, before, nextOffset, fileId, d, loc);
      }
    }

    /** The lookup with its one-entry cache, which may hold any index at all. */
    method GetEntryForLocation(loc: Loc) returns (i: nat)
      requires Valid() && slocEntryTable != [] && loc != 0
      modifies `lastEntryLookup
      ensures i == Find(slocEntryTable, loc) && i < |slocEntryTable| && slocEntryTable[i].offset <= loc
    {
      TableIsSorted(slocEntryTable, files, nextOffset);
      if lastEntryLookup < |slocEntryTable| {
        var cached := slocEntryTable[lastEntryLookup];
        var end := if lastEntryLookup + 1 < |slocEntryTable| then slocEntryTable[lastEntryLookup + 1].offset else nextOffset;
        if cached.offset <= loc < end {
          FindIsUnique(slocEntryTable, loc, lastEntryLookup);
          return lastEntryLookup;
        }
      }
      var k := UpperBound(slocEntryTable, (e: Entry) => e.offset, loc);
      lastEntryLookup := k - 1;
      FindIsUnique(slocEntryTable, loc, k - 1);
      i := k - 1;
    }

    /** getRealSrcLoc on a file entry: the physical offset within the file. */
    method GetRealOffset(f: FileSrc, local: nat) returns (real_: nat)
      requires FileOk(f)
      ensures real_ == RealOffset(f, local)
    {
      RealOffsetIsNat(f, local);
      if f.changeLists == [] {
        return local;
      }
      real_ := LogicalToPhysical(f.changeLists, local);
      MapsIsFunctional(f.changeLists, local, real_, RealOffset(f, local));
    }

    method GetFilePosition(f: FileSrc, off: nat) returns (where: LogicalLocation)
      requires FileOk(f)
      ensures where == FilePosition(f, off)
    {
      hide LineStarts, Newlines, LineStart, StepsOk, Shift;
      LineStartsAreSorted(f.buffer);
      var k := UpperBound(f.lineOffsets, (n: nat) => n, off);
      LookupCountsNewlines(f.buffer, off, k);
      var lineIdx := k - 1;
      var column := off - f.lineOffsets[lineIdx] + 1;
      var active: seq<LineDirective> := [];
      var i := 0;
      while i < |f.lineDirectives| && f.lineDirectives[i].lineIndex <= lineIdx
        invariant 0 <= i <= |f.lineDirectives|
        invariant active == [] || active[0].lineIndex <= lineIdx
        invariant var rest := ActiveDirective(f.lineDirectives[i..], lineIdx);
                  ActiveDirective(f.lineDirectives, lineIdx) == if rest == [] then active else rest
      {
        assert f.lineDirectives[i..][1..] == f.lineDirectives[i + 1..];
        active := [f.lineDirectives[i]];
        i := i + 1;
      }
      if active == [] {
        where := LogicalLocation(f.name, lineIdx + 1, column);
      } else {
        where := LogicalLocation(if active[0].hasFileName then active[0].fileName else f.name,
                                 active[0].lineNumber + (lineIdx - active[0].lineIndex), column);
      }
    }

    method GetLogicalLocation(loc: Loc) returns (where: LogicalLocation)
      requires Valid() && (loc == 0 || slocEntryTable != [])
      modifies `lastEntryLookup
      ensures where == LogicalOf(loc)
      decreases loc
    {
      if loc == 0 {
        return LogicalLocation("", 0, 0);
      }
      TableIsSorted(slocEntryTable, files, nextOffset);
      var i := GetEntryForLocation(loc);
      var e := slocEntryTable[i];
      if e.Expansion? {
        where := GetLogicalLocation(e.caller);
      } else {
        var real_ := GetRealOffset(files[e.fileId], loc - e.offset);
        where := GetFilePosition(files[e.fileId], real_);
      }
    }

    /** Entries and files of another manager, appended; every location keeps its meaning. */
    method ImportForeignBlock(source: SourceManager) returns (delta: nat)
      requires Valid() && source.Valid() && source != this
      modifies `slocEntryTable, `files, `nextOffset
      ensures Valid() && delta == old(nextOffset) - 1
      ensures nextOffset == old(nextOffset) + source.nextOffset - 1
      ensures forall loc :: 0 <= loc < old(nextOffset) ==>
                LogicalOf(loc) == old(LogicalOf(loc))
      ensures forall loc :: 0 <= loc < source.nextOffset ==>
                LogicalOf(Rebase(loc, delta)) == source.LogicalOf(loc)
      ensures |slocEntryTable| == old(|slocEntryTable|) + |source.slocEntryTable|
              && slocEntryTable[..old(|slocEntryTable|)] == old(slocEntryTable)
      ensures forall i :: 0 <= i < |source.slocEntryTable| ==>
                IsMoved(slocEntryTable[old(|slocEntryTable|) + i], source.slocEntryTable[i], delta, files, source.files)
    {
      hide TableOk, Imported, Clones, Pick, KnownFiles;
      ghost var entries0, files0, next0 := slocEntryTable, files, nextOffset;
      ghost var foreign := source.slocEntryTable;
      ImportIsRight(entries0, files0, next0, foreign, source.files, source.nextOffset);
      delta := nextOffset - 1;
      nextOffset := nextOffset + source.nextOffset - 1;
      NothingImported(entries0, files0, foreign, delta, source.files);
      for i := 0 to |source.slocEntryTable|
        invariant nextOffset == next0 - 1 + source.nextOffset
        invariant slocEntryTable == entries0 + Imported(foreign[..i], delta, |files0|)
        invariant KnownFiles(Clones(foreign[..i]), source.files)
        invariant files == files0 + Pick(Clones(foreign[..i]), source.files)
      {
        OneMoreImported(entries0, files0, foreign, i, delta, source.files, source.nextOffset);
        var e := source.slocEntryTable[i];
        match e {
          case Expansion(off, def, caller) =>
            slocEntryTable := slocEntryTable + [Expansion(off + delta, Rebase(def, delta), Rebase(caller, delta))];
          case FileEntry(off, id) =>
            slocEntryTable := slocEntryTable + [FileEntry(off + delta, |files|)];
            files := files + [source.files[id]];
        }
      }
      assert foreign[..|foreign|] == foreign;
      EntriesAreMoved(files0, foreign, source.files, source.nextOffset, delta);
    }
  }

  /** An entry of the importing side against the foreign one: every location it holds moved by delta, the invalid one
      staying, and a file that is the same. */
  predicate IsMoved(m: Entry, e: Entry, delta: nat, files: seq<FileSrc>, sourceFiles: seq<FileSrc>) {
    && m.offset == e.offset + delta && (m.Expansion? <==> e.Expansion?)
    && (e.Expansion? ==>
          && m.definition == (if e.definition == 0 then 0 else e.definition + delta)
          && m.caller == if e.caller == 0 then 0 else e.caller + delta)
    && (e.FileEntry? ==> m.fileId < |files| && e.fileId < |sourceFiles| && files[m.fileId] == sourceFiles[e.fileId])
  }

  lemma EntriesAreMoved(files: seq<FileSrc>, foreign: seq<Entry>, sourceFiles: seq<FileSrc>, sourceNext: Loc, delta: nat)
    requires TableOk(foreign, sourceFiles, sourceNext) && KnownFiles(Clones(foreign), sourceFiles)
    ensures |Imported(foreign, delta, |files|)| == |foreign|
    ensures forall i :: 0 <= i < |foreign| ==>
              IsMoved(Imported(foreign, delta, |files|)[i], foreign[i], delta, files + Pick(Clones(foreign), sourceFiles), sourceFiles)
  {
    hide TableOk, Imported, Clones, FileOk;
    ImportedShape(foreign, delta, |files|);
    forall i | 0 <= i < |foreign|
      ensures IsMoved(Imported(foreign, delta, |files|)[i], foreign[i], delta, files + Pick(Clones(foreign), sourceFiles), sourceFiles) {
      if foreign[i].FileEntry? {
        ClonedFile(foreign, delta, |files|, i);
        TableIsSorted(foreign, sourceFiles, sourceNext);
      }
    }
  }

  lemma NothingImported(entries: seq<Entry>, files: seq<FileSrc>, foreign: seq<Entry>, delta: nat, sourceFiles: seq<FileSrc>)
    ensures entries == entries + Imported(foreign[..0], delta, |files|)
    ensures KnownFiles(Clones(foreign[..0]), sourceFiles)
    ensures files == files + Pick(Clones(foreign[..0]), sourceFiles)
  {
  }

  /** One turn of the import loop. */
  lemma OneMoreImported(entries: seq<Entry>, files: seq<FileSrc>, foreign: seq<Entry>, i: nat, delta: nat,
                        sourceFiles: seq<FileSrc>, sourceNext: Loc)
    requires i < |foreign| && TableOk(foreign, sourceFiles, sourceNext)
    requires KnownFiles(Clones(foreign[..i]), sourceFiles)
    ensures KnownFiles(Clones(foreign[..i + 1]), sourceFiles)
    ensures foreign[i].Expansion? ==>
              && entries + Imported(foreign[..i + 1], delta, |files|)
                 == entries + Imported(foreign[..i], delta, |files|)
                    + [Expansion(foreign[i].offset + delta, Rebase(foreign[i].definition, delta), Rebase(foreign[i].caller, delta))]
              && Pick(Clones(foreign[..i + 1]), sourceFiles) == Pick(Clones(foreign[..i]), sourceFiles)
    ensures foreign[i].FileEntry? ==>
              && foreign[i].fileId < |sourceFiles|
              && entries + Imported(foreign[..i + 1], delta, |files|)
                 == entries + Imported(foreign[..i], delta, |files|)
                    + [FileEntry(foreign[i].offset + delta, |files + Pick(Clones(foreign[..i]), sourceFiles)|)]
              && files + Pick(Clones(foreign[..i + 1]), sourceFiles)
                 == files + Pick(Clones(foreign[..i]), sourceFiles) + [sourceFiles[foreign[i].fileId]]
  {
    hide TableOk, FileOk;
    TableIsSorted(foreign, sourceFiles, sourceNext);
    assert foreign[..i + 1][..i] == foreign[..i];
  }

  /** One more entry at next. */
  lemma Appended(entries: seq<Entry>, files: seq<FileSrc>, next: Loc, e: Entry, more: seq<FileSrc>, next': Loc)
    requires TableOk(entries, files, next) && next < next' && e.offset == next
    requires e.Expansion? ==> e.caller < next
    requires e.FileEntry? ==> e.fileId < |files + more| && FileOk((files + more)[e.fileId])
    ensures TableOk(entries + [e], files + more, next')
    ensures forall loc :: 0 <= loc < next ==>
              Logical(entries + [e], files + more, next', loc) == Logical(entries, files, next, loc)
  {
    MoreFilesKeepTable(entries, files, files + more, next);
    TableSnoc(entries, files + more, e, next');
    forall loc | 0 <= loc < next
      ensures Logical(entries + [e], files + more, next', loc) == Logical(entries, files, next, loc)
    {
      GrowthKeepsLocations(entries, files, next, [e], more, next', loc);
    }
  }

  /** Both halves of what an import promises. */
  lemma ImportIsRight(entries: seq<Entry>, files: seq<FileSrc>, next: Loc,
                      source: seq<Entry>, sourceFiles: seq<FileSrc>, sourceNext: Loc)
    requires TableOk(entries, files, next) && TableOk(source, sourceFiles, sourceNext)
    ensures KnownFiles(Clones(source), sourceFiles) && next >= 1 && sourceNext >= 1
    ensures var entries', files' := entries + Imported(source, next - 1, |files|), files + Pick(Clones(source), sourceFiles);
            && TableOk(entries', files', next - 1 + sourceNext)
            && (forall loc :: 0 <= loc < next ==>
                  Logical(entries', files', next - 1 + sourceNext, loc) == Logical(entries, files, next, loc))
            && (forall loc :: 0 <= loc < sourceNext ==>
                  Logical(entries', files', next - 1 + sourceNext, Rebase(loc, next - 1))
                     == Logical(source, sourceFiles, sourceNext, loc))
  {
    hide TableOk, Logical, Imported, Clones, FileOk, Rebase;
    ClonesAreKnown(source, sourceFiles, sourceNext);
    TableIsSorted(entries, files, next);
    TableIsSorted(source, sourceFiles, sourceNext);
    var moved := Imported(source, next - 1, |files|);
    var files' := files + Pick(Clones(source), sourceFiles);
    ImportKeepsTable(entries, files, next, source, sourceFiles, sourceNext, files');
    ImportedShape(source, next - 1, |files|);
    assert forall i :: 0 <= i < |source| ==> 1 <= source[i].offset;
    forall loc | 0 <= loc < next
      ensures Logical(entries + moved, files', next - 1 + sourceNext, loc) == Logical(entries, files, next, loc)
    {
      GrowthKeepsLocations(entries, files, next, moved, Pick(Clones(source), sourceFiles), next - 1 + sourceNext, loc);
    }
    forall loc | 0 <= loc < sourceNext
      ensures Logical(entries + moved, files', next - 1 + sourceNext, Rebase(loc, next - 1))
                 == Logical(source, sourceFiles, sourceNext, loc)
    {
      ImportMovesLocations(entries, files, next, source, sourceFiles, sourceNext, loc);
    }
  }

  /** A location of the last entry, an expansion, is reported where its caller is. */
  lemma ReportedAtCaller(entries: seq<Entry>, files: seq<FileSrc>, next: Loc, e: Entry, next': Loc, loc: Loc)
    requires TableOk(entries, files, next) && next < next' && e.Expansion? && e.offset == next && e.caller < next
    requires next <= loc
    ensures TableOk(entries + [e], files, next')
    ensures Logical(entries + [e], files, next', loc) == Logical(entries, files, next, e.caller)
  {
    hide TableOk;
    assert files + [] == files;
    Appended(entries, files, next, e, [], next');
    FindIsUnique(entries + [e], loc, |entries|);
    assert loc > 0 by { NextIsPositive(entries, files, next); }
  }

  lemma ReportedAtCallers(entries: seq<Entry>, files: seq<FileSrc>, next: Loc, e: Entry, next': Loc)
    requires TableOk(entries, files, next) && next < next' && e.Expansion? && e.offset == next && e.caller < next
    ensures TableOk(entries + [e], files, next')
    ensures var all := entries + [e];
            forall loc :: next <= loc < next' ==> Logical(all, files, next', loc) == Logical(entries, files, next, e.caller)
  {
    hide TableOk, Logical;
    var all := entries + [e];
    ReportedAtCaller(entries, files, next, e, next', next);
    forall loc | next <= loc < next' ensures Logical(all, files, next', loc) == Logical(entries, files, next, e.caller) {
      ReportedAtCaller(entries, files, next, e, next', loc);
    }
  }

  /** The physical byte a logical index comes from; the index behind the text stands for the end of the file. */
  function OriginAt(buffer: string, k: nat): nat {
    if k < |Units(buffer, 0)| then Units(buffer, 0)[k].origin else |buffer|
  }

  /** What a location shows after a file has been spliced: the same, unless its home is that file. */
  ghost predicate SplicedAt(before: LogicalLocation, now: LogicalLocation, home: Place, f: FileSrc, fileId: nat) {
    match home
    case Nowhere => now == before
    case In(id, local) =>
      if id != fileId then now == before
      else local <= |Units(f.buffer, 0)| ==> now == FilePosition(f, OriginAt(f.buffer, local))
  }

  lemma SplicedHome(entries: seq<Entry>, files: seq<FileSrc>, next: Loc, fileId: nat, steps: seq<MappingStep>, loc: Loc)
    requires TableOk(entries, files, next) && fileId < |files|
    requires Describes(steps, Units(files[fileId].buffer, 0), |files[fileId].buffer|)
    requires TableOk(entries, files[fileId := files[fileId].(changeLists := steps)], next)
    ensures var f := files[fileId];
            var files' := files[fileId := f.(changeLists := steps)];
            && Home(entries, files', next, loc) == Home(entries, files, next, loc)
            && SplicedAt(Logical(entries, files, next, loc), Logical(entries, files', next, loc),
                         Home(entries, files', next, loc), f, fileId)
  {
    hide TableOk, Logical, Home, Units, Describes, RealOffset, FileOk;
    var f := files[fileId];
    var files' := files[fileId := f.(changeLists := steps)];
    HomeStays(entries, files, files', next, loc);
    ShownAtHome(entries, files, next, loc);
    ShownAtHome(entries, files', next, loc);
    SplicedFileIsOk(f, steps);
  }

  /** The step map of the splicer is a change list, and sends logical indices to where they came from. */
  lemma SplicedFileIsOk(f: FileSrc, steps: seq<MappingStep>)
    requires Describes(steps, Units(f.buffer, 0), |f.buffer|)
    ensures FileOk(f) ==> FileOk(f.(changeLists := steps))
    ensures forall k :: 0 <= k < |Units(f.buffer, 0)| ==> RealOffset(f.(changeLists := steps), k) == Units(f.buffer, 0)[k].origin
    ensures RealOffset(f.(changeLists := steps), |Units(f.buffer, 0)|) == |f.buffer|
  {
    hide Units, MapsAll, LineStarts;
    EndOfMap(f.(changeLists := steps), |Units(f.buffer, 0)|);
    hide RealOffset;
    var units := Units(f.buffer, 0);
    var g := f.(changeLists := steps, lineOffsets := LineStarts(f.buffer));
    assert steps != [];
    StepsAreSorted(steps);
    assert FileOk(g);
    forall k | 0 <= k < |units| ensures RealOffset(f.(changeLists := steps), k) == units[k].origin {
      MapsAllAt(steps, units, |units|, k);
      RealOffsetIsNat(g, k);
      MapsIsFunctional(steps, k, RealOffset(g, k), units[k].origin);
      SameChangeLists(f.(changeLists := steps), g, k);
    }
  }

  lemma EndOfMap(f: FileSrc, end: nat)
    requires f.changeLists != [] && LastOf(f.changeLists).logical <= end
    ensures RealOffset(f, end) == end + Shift(LastOf(f.changeLists))
  {
  }

  lemma SameChangeLists(f: FileSrc, g: FileSrc, k: nat)
    requires f.changeLists == g.changeLists
    ensures RealOffset(f, k) == RealOffset(g, k)
  {
  }

  /** Changing what is known of one file keeps the table in order. */
  lemma {:induction false} FilesImproved(entries: seq<Entry>, files: seq<FileSrc>, files': seq<FileSrc>, next: Loc, fileId: nat)
    requires TableOk(entries, files, next) && fileId < |files| == |files'|
    requires files' == files[fileId := files'[fileId]] && (FileOk(files[fileId]) ==> FileOk(files'[fileId]))
    ensures TableOk(entries, files', next)
  {
    hide FileOk;
    if entries != [] {
      FilesImproved(entries[..|entries| - 1], files, files', entries[|entries| - 1].offset, fileId);
    }
  }

  /** A #line directive that is not in front of those before it applies from its line on, and to nothing before. */
  lemma {:induction false} NewDirectiveApplies(ds: seq<LineDirective>, d: LineDirective, lineIndex: nat)
    requires forall i :: 0 <= i < |ds| ==> ds[i].lineIndex <= d.lineIndex
    ensures ActiveDirective(ds + [d], lineIndex) == if d.lineIndex <= lineIndex then [d] else ActiveDirective(ds, lineIndex)
  {
    if ds == [] {
      assert ds + [d] == [d] && [d][1..] == [];
    } else {
      assert (ds + [d])[1..] == ds[1..] + [d];
      NewDirectiveApplies(ds[1..], d, lineIndex);
    }
  }

  /** What a location shows after a #line directive of a file. */
  ghost predicate DirectedAt(before: LogicalLocation, now: LogicalLocation, home: Place, f: FileSrc, fileId: nat,
                             d: LineDirective) {
    match home
    case Nowhere => now == before
    case In(id, local) =>
      if id != fileId then now == before
      else InOrder(f.lineDirectives, d) && RealOffset(f, local) >= 0 ==>
        var lineIndex := Newlines(Before(f.buffer, RealOffset(f, local)));
        if lineIndex < d.lineIndex then now == before
        else now == before.(file := if d.hasFileName then d.fileName else f.name, line := d.lineNumber + (lineIndex - d.lineIndex))
  }

  predicate InOrder(ds: seq<LineDirective>, d: LineDirective) {
    forall i :: 0 <= i < |ds| ==> ds[i].lineIndex <= d.lineIndex
  }

  lemma DirectedHome(entries: seq<Entry>, files: seq<FileSrc>, next: Loc, fileId: nat, d: LineDirective, loc: Loc)
    requires TableOk(entries, files, next) && fileId < |files|
    requires TableOk(entries, files[fileId := files[fileId].(lineDirectives := files[fileId].lineDirectives + [d])], next)
    ensures var f := files[fileId];
            var files' := files[fileId := f.(lineDirectives := f.lineDirectives + [d])];
            && Home(entries, files', next, loc) == Home(entries, files, next, loc)
            && DirectedAt(Logical(entries, files, next, loc), Logical(entries, files', next, loc),
                          Home(entries, files', next, loc), f, fileId, d)
  {
    hide TableOk, Logical, Home, RealOffset, FileOk, Newlines, LineStart, ActiveDirective;
    var f := files[fileId];
    var g := f.(lineDirectives := f.lineDirectives + [d]);
    var files' := files[fileId := g];
    HomeStays(entries, files, files', next, loc);
    ShownAtHome(entries, files, next, loc);
    ShownAtHome(entries, files', next, loc);
    var home := Home(entries, files, next, loc);
    if home.In? && home.fileId == fileId && InOrder(f.lineDirectives, d) {
      SameChangeLists(f, g, home.local);
      NewDirectiveApplies(f.lineDirectives, d, Newlines(Before(f.buffer, RealOffset(f, home.local))));
    }
  }

  // ---------------------------------------------------------------- a worked example

  /** In a file of a line feed after a, #line 10 "b.c" for the second line, and bc, the location of c is shown as line 10 of
      b.c, column 2; a macro entry called from there is shown there too, and a is line 1 of a.c. */
  method LocateExample() returns (atA: LogicalLocation, atC: LogicalLocation, inMacro: LogicalLocation)
    ensures atA == LogicalLocation("a.c", 1, 1)
    ensures atC == inMacro == LogicalLocation("b.c", 10, 2)
  {
    hide Logical, TableOk, FilePosition, LineStarts, DirectedAt, Home;
    var sm := new SourceManager();
    var id := sm.CreateFileEntry("a.c", "a\nbc");
    ghost var files0, entries, next := sm.files, sm.slocEntryTable, sm.nextOffset;
    sm.AddLineDirective(id, LineDirective(1, 10, "b.c", true));
    OneFileShown(entries, sm.files, next, 1);
    OneFileShown(entries, sm.files, next, 4);
    ExamplePositions(sm.files[0]);
    assert sm.LogicalOf(1) == LogicalLocation("a.c", 1, 1) && sm.LogicalOf(4) == LogicalLocation("b.c", 10, 2);
    var base := sm.CreateMacroEntry(1, 4, 3);
    assert sm.LogicalOf(base + 2) == sm.LogicalOf(4) == LogicalLocation("b.c", 10, 2);
    atA := sm.GetLogicalLocation(1);
    atC := sm.GetLogicalLocation(4);
    inMacro := sm.GetLogicalLocation(base + 2);
  }

  lemma OneFileShown(entries: seq<Entry>, files: seq<FileSrc>, next: Loc, loc: Loc)
    requires TableOk(entries, files, next) && entries == [FileEntry(1, 0)] && |files| == 1 && files[0].changeLists == [] && loc >= 1
    ensures Logical(entries, files, next, loc) == FilePosition(files[0], loc - 1)
  {
  }

  lemma ExamplePositions(f: FileSrc)
    requires f.name == "a.c" && f.buffer == "a\nbc" && f.lineDirectives == [LineDirective(1, 10, "b.c", true)]
    ensures FilePosition(f, 0) == LogicalLocation("a.c", 1, 1) && FilePosition(f, 3) == LogicalLocation("b.c", 10, 2)
  {
    var text := f.buffer[..3];
    assert text == "a\nb" && text[..2] == "a\n" && text[..2][..1] == "a" && text[..2][..1][..0] == "";
    assert Newlines("a") == 0 && Newlines("a\n") == 1 && Newlines(text) == 1;
    assert LineStart(text) == LineStart("a\n") == 2;
    assert f.lineDirectives[1..] == [] && ActiveDirective(f.lineDirectives[1..], 1) == [];
    assert ActiveDirective(f.lineDirectives, 1) == [f.lineDirectives[0]];
    assert Before(f.buffer, 3) == text && Before(f.buffer, 0) == "";
  }
}
