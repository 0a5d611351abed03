/** Locations of macro-expansion tokens: the numbering inside `subst`, the second entry that
    expand_function_macro makes, and why following callers always ends. */
module ExpansionLocations {
  import opened SourceLocations

  // ---------------------------------------------------------------- one replacement being built

  /** What `subst` has built so far: the entry's base, the next location to hand out, the tokens' locations. */
  datatype Built = Built(base: Loc, srcOffset: Loc, tokens: seq<Loc>)

  datatype Action =
    | Append(count: nat)        // append_tokens: body tokens, arguments, stringified arguments
    | Glue(count: nat)          // glue_with: the last token is popped and pasted with the first of count tokens
    | DropComma                 // GNU comma removal before an empty variadic argument

  /** The token at index i carries base + i, and the next location follows the last token. */
  ghost predicate Numbered(b: Built) {
    b.srcOffset == b.base + |b.tokens| && forall i :: 0 <= i < |b.tokens| ==> b.tokens[i] == b.base + i
  }

  /** How many tokens an action leaves. */
  function CountAfter(n: nat, a: Action): nat {
    match a
    case Append(k) => n + k
    case Glue(k) => if k == 0 then n else if n == 0 then k else n - 1 + k
    case DropComma => if n == 0 then 0 else n - 1
  }

  function Numbering(base: Loc, n: nat): Built {
    Built(base, base + n, seq(n, i requires 0 <= i < n => base + i))
  }

  lemma NumberedIsNumbering(b: Built)
    ensures Numbered(b) <==> b == Numbering(b.base, |b.tokens|)
  {
    if Numbered(b) {
      assert b.tokens == Numbering(b.base, |b.tokens|).tokens;
    }
  }

  class SubstBuffer {
    const base: Loc
    var srcOffset: Loc
    var expandedTokens: seq<Loc>

    constructor (start: Loc)
      ensures Contents() == Numbering(start, 0)
    {
      base := start;
      srcOffset, expandedTokens := start, [];
      new;
      NumberedIsNumbering(Contents());
    }

    function Contents(): Built
      reads this
    {
      Built(base, srcOffset, expandedTokens)
    }

    method AppendToken()
      modifies this
      ensures srcOffset == old(srcOffset) + 1 && expandedTokens == old(expandedTokens) + [old(srcOffset)]
    {
      expandedTokens := expandedTokens + [srcOffset];
      srcOffset := srcOffset + 1;
    }

    method AppendTokens(count: nat)
      requires Numbered(Contents())
      modifies this
      ensures Numbered(Contents()) && |expandedTokens| == old(|expandedTokens|) + count
    {
      for k := 0 to count
        invariant Numbered(Contents()) && |expandedTokens| == old(|expandedTokens|) + k
      {
        AppendToken();
      }
    }

    method PopToken()
      requires Numbered(Contents()) && expandedTokens != []
      modifies this
      ensures Numbered(Contents()) && |expandedTokens| == old(|expandedTokens|) - 1
    {
      expandedTokens := expandedTokens[..|expandedTokens| - 1];
      if srcOffset > 0 {
        srcOffset := srcOffset - 1;
      }
    }

    method Perform(a: Action)
      requires Numbered(Contents())
      modifies this
      ensures Contents() == Numbering(base, CountAfter(old(|expandedTokens|), a))
      ensures a.Append? ==> |expandedTokens| == old(|expandedTokens|) + a.count
      ensures a.Glue? && a.count > 0 ==>
                |expandedTokens| == if old(expandedTokens) == [] then a.count else old(|expandedTokens|) - 1 + a.count
      ensures a.Glue? && a.count == 0 ==> expandedTokens == old(expandedTokens)
      ensures a.DropComma? ==> |expandedTokens| == if old(expandedTokens) == [] then 0 else old(|expandedTokens|) - 1
    {
      match a {
        case Append(count) =>
          AppendTokens(count);
        case Glue(count) =>
          if count != 0 {
            if expandedTokens == [] {
              AppendTokens(count);
            } else {
              PopToken();
              AppendToken();
              for k := 1 to count
                invariant Numbered(Contents()) && |expandedTokens| == old(|expandedTokens|) - 1 + k
              {
                AppendToken();
              }
            }
          }
        case DropComma =>
          if expandedTokens != [] {
            PopToken();
          }
      }
      NumberedIsNumbering(Contents());
    }
  }

  /** A step of `subst`: an action on the tokens, or an entry made while an argument is expanded. The entry of the
      argument itself has the macro's trigger for its caller; an expansion inside the argument has its own. */
  datatype SubstStep = Do(action: Action) | MakeEntry(def: Loc, caller: Loc, size: nat)

  /** How many tokens some steps leave: the actions one after the other. */
  function TokensAfter(steps: seq<SubstStep>): nat {
    if steps == [] then 0
    else
      var before := TokensAfter(steps[..|steps| - 1]);
      match steps[|steps| - 1]
      case Do(a) => CountAfter(before, a)
      case MakeEntry(_, _, _) => before
  }

  /** Where the next entry starts after some steps. */
  function NextAfter(start: Loc, steps: seq<SubstStep>): Loc {
    if steps == [] then start
    else
      var before := NextAfter(start, steps[..|steps| - 1]);
      match steps[|steps| - 1]
      case Do(_) => before
      case MakeEntry(_, _, size) => before + size + 1
  }

  /** Every entry is made for a token whose location has been handed out. */
  predicate CallersKnown(start: Loc, steps: seq<SubstStep>) {
    forall i :: 0 <= i < |steps| && steps[i].MakeEntry? ==> steps[i].caller < NextAfter(start, steps[..i])
  }

  /** The caller of the entry a location falls in, among the entries made from start on; the trigger if it falls in none
      of them. */
  function CallerAt(start: Loc, steps: seq<SubstStep>, trigger: Loc, loc: Loc): Loc {
    if steps == [] then trigger
    else
      var init, last := steps[..|steps| - 1], steps[|steps| - 1];
      if last.MakeEntry? && NextAfter(start, init) <= loc < NextAfter(start, steps) then last.caller
      else CallerAt(start, init, trigger, loc)
  }

  lemma {:induction false} EntriesGoUp(start: Loc, steps: seq<SubstStep>)
    ensures start <= NextAfter(start, steps)
  {
    if steps != [] {
      EntriesGoUp(start, steps[..|steps| - 1]);
    }
  }

  /** Below the first of these entries, and above the last, is the trigger's own. */
  lemma {:induction false} OutsideIsTrigger(start: Loc, steps: seq<SubstStep>, trigger: Loc, loc: Loc)
    ensures loc < start || NextAfter(start, steps) <= loc ==> CallerAt(start, steps, trigger, loc) == trigger
    ensures (forall i :: 0 <= i < |steps| && steps[i].MakeEntry? ==> steps[i].caller == trigger) ==>
              CallerAt(start, steps, trigger, loc) == trigger
  {
    if steps != [] {
      EntriesGoUp(start, steps[..|steps| - 1]);
      OutsideIsTrigger(start, steps[..|steps| - 1], trigger, loc);
    }
  }

  /** A location in the entry of step k belongs to the caller of step k. */
  lemma {:induction false} CallerOfEntry(start: Loc, steps: seq<SubstStep>, trigger: Loc, k: nat)
    requires k < |steps| && steps[k].MakeEntry?
    ensures CallerAt(start, steps, trigger, NextAfter(start, steps[..k])) == steps[k].caller
  {
    var init := steps[..|steps| - 1];
    if k < |steps| - 1 {
      assert init[..k] == steps[..k] && init[..k + 1] == steps[..k + 1];
      CallerOfEntry(start, init, trigger, k);
      StartsGoUp(start, init, k);
    }
  }

  /** The entry of step k ends at or below whatever follows. */
  lemma {:induction false} StartsGoUp(start: Loc, steps: seq<SubstStep>, k: nat)
    requires k < |steps| && steps[k].MakeEntry?
    ensures NextAfter(start, steps[..k]) < NextAfter(start, steps)
  {
    if k < |steps| - 1 {
      assert steps[..|steps| - 1][..k] == steps[..k];
      StartsGoUp(start, steps[..|steps| - 1], k);
    }
  }

  /** A location belongs to the trigger, or to an entry that starts at or below it. */
  lemma {:induction false} CallerIsSomeStep(start: Loc, steps: seq<SubstStep>, trigger: Loc, loc: Loc)
    ensures CallerAt(start, steps, trigger, loc) == trigger
         || exists k :: StartsBelow(start, steps, k, loc + 1) && CallerAt(start, steps, trigger, loc) == steps[k].caller
  {
    if steps != [] {
      var init, last := steps[..|steps| - 1], steps[|steps| - 1];
      if last.MakeEntry? && NextAfter(start, init) <= loc < NextAfter(start, steps) {
        assert StartsBelow(start, steps, |steps| - 1, loc + 1);
      } else {
        CallerIsSomeStep(start, init, trigger, loc);
        if k :| StartsBelow(start, init, k, loc + 1) && CallerAt(start, init, trigger, loc) == init[k].caller {
          assert init[..k] == steps[..k];
          assert StartsBelow(start, steps, k, loc + 1);
        }
      }
    }
  }

  /** Step k makes an entry that starts below the given end. */
  predicate StartsBelow(start: Loc, steps: seq<SubstStep>, k: int, end: Loc) {
    0 <= k < |steps| && steps[k].MakeEntry? && NextAfter(start, steps[..k]) < end
  }

  ghost predicate LocationsShow(start: Loc, steps: seq<SubstStep>, trigger: Loc, base: Loc, end: Loc, shows: Loc -> bool) {
    forall loc :: base <= loc < end ==> shows(CallerAt(start, steps, trigger, loc))
  }

  ghost predicate EntriesShow(start: Loc, steps: seq<SubstStep>, end: Loc, shows: Loc -> bool) {
    forall k :: StartsBelow(start, steps, k, end) ==> shows(steps[k].caller)
  }

  /** Whatever holds of the trigger holds of the callers of all locations up to an end if and only if it holds of the
      caller of every entry that starts below that end. */
  lemma LocationsShowExactly(start: Loc, steps: seq<SubstStep>, trigger: Loc, base: Loc, end: Loc, shows: Loc -> bool)
    requires base <= start && shows(trigger)
    ensures LocationsShow(start, steps, trigger, base, end, shows) <==> EntriesShow(start, steps, end, shows)
  {
    hide CallerAt, NextAfter;
    if LocationsShow(start, steps, trigger, base, end, shows) {
      forall k | StartsBelow(start, steps, k, end) ensures shows(steps[k].caller) {
        CallerOfEntry(start, steps, trigger, k);
        EntriesGoUp(start, steps[..k]);
        assert shows(CallerAt(start, steps, trigger, NextAfter(start, steps[..k])));
      }
    }
    if EntriesShow(start, steps, end, shows) {
      forall loc | base <= loc < end ensures shows(CallerAt(start, steps, trigger, loc)) {
        CallerIsSomeStep(start, steps, trigger, loc);
        if k :| StartsBelow(start, steps, k, loc + 1) && CallerAt(start, steps, trigger, loc) == steps[k].caller {
          assert StartsBelow(start, steps, k, end);
        }
      }
    }
  }

  /** Every token falls in an entry of the trigger if and only if no expansion inside an argument, with another caller,
      has its entry below the end of the tokens; in particular if they outgrow the body by one at most. */
  lemma AllAtTriggerExactly(base: Loc, bodySize: nat, steps: seq<SubstStep>, trigger: Loc)
    ensures var start, end := base + bodySize + 1, base + TokensAfter(steps);
            && ((forall loc :: base <= loc < end ==> CallerAt(start, steps, trigger, loc) == trigger)
               <==> (forall k :: StartsBelow(start, steps, k, end) ==> steps[k].caller == trigger))
            && (end <= start ==> forall loc :: base <= loc < end ==> CallerAt(start, steps, trigger, loc) == trigger)
  {
    var start, end := base + bodySize + 1, base + TokensAfter(steps);
    hide CallerAt, NextAfter, TokensAfter;
    var isTrigger := (loc: Loc) => loc == trigger;
    LocationsShowExactly(start, steps, trigger, base, end, isTrigger);
    if LocationsShow(start, steps, trigger, base, end, isTrigger) {
      forall loc | base <= loc < end ensures CallerAt(start, steps, trigger, loc) == trigger {
        assert isTrigger(CallerAt(start, steps, trigger, loc));
      }
      forall k | StartsBelow(start, steps, k, end) ensures steps[k].caller == trigger {
        assert isTrigger(steps[k].caller);
      }
    } else {
      assert exists loc :: base <= loc < end && !isTrigger(CallerAt(start, steps, trigger, loc));
      assert exists k :: StartsBelow(start, steps, k, end) && !isTrigger(steps[k].caller);
    }
    if end <= start {
      forall loc | base <= loc < end ensures CallerAt(start, steps, trigger, loc) == trigger {
        OutsideIsTrigger(start, steps, trigger, loc);
      }
    }
  }

  /** The same for what a user is shown. */
  lemma ReportedExactly(entries: seq<Entry>, files: seq<FileSrc>, next: Loc, start: Loc, steps: seq<SubstStep>, trigger: Loc,
                        base: Loc, pushed: seq<Loc>)
    requires TableOk(entries, files, next) && base <= start && pushed == Numbering(base, |pushed|).tokens
    requires forall i :: 0 <= i < |pushed| ==>
               Logical(entries, files, next, pushed[i]) == Logical(entries, files, next, CallerAt(start, steps, trigger, pushed[i]))
    ensures (forall i :: 0 <= i < |pushed| ==> Logical(entries, files, next, pushed[i]) == Logical(entries, files, next, trigger))
       <==> (forall k :: StartsBelow(start, steps, k, base + |pushed|) ==>
               Logical(entries, files, next, steps[k].caller) == Logical(entries, files, next, trigger))
  {
    hide CallerAt, StartsBelow, TableOk, Logical;
    var shows := ShownLike(entries, files, next, trigger);
    var end := base + |pushed|;
    LocationsShowExactly(start, steps, trigger, base, end, shows);
    assert forall i :: 0 <= i < |pushed| ==> pushed[i] == base + i;
    if forall i :: 0 <= i < |pushed| ==> Logical(entries, files, next, pushed[i]) == Logical(entries, files, next, trigger) {
      forall loc | base <= loc < end ensures shows(CallerAt(start, steps, trigger, loc)) {
        assert loc == pushed[loc - base];
      }
      assert LocationsShow(start, steps, trigger, base, end, shows);
    }
    if EntriesShow(start, steps, end, shows) {
      forall i | 0 <= i < |pushed|
        ensures Logical(entries, files, next, pushed[i]) == Logical(entries, files, next, trigger) {
        assert base <= pushed[i] < end;
        assert shows(CallerAt(start, steps, trigger, pushed[i]));
      }
    }
  }

  /** Whether a location is reported where another one is. */
  ghost function ShownLike(entries: seq<Entry>, files: seq<FileSrc>, next: Loc, at: Loc): (shows: Loc -> bool)
    requires TableOk(entries, files, next)
    ensures forall loc :: shows(loc) <==> Logical(entries, files, next, loc) == Logical(entries, files, next, at)
  {
    (loc: Loc) => Logical(entries, files, next, loc) == Logical(entries, files, next, at)
  }

  /** The numbering of a replacement list: an entry for the macro body, then the steps. Every location from the entry on
      is reported where the caller of the entry is that it falls in. */
  method NumberReplacement(sm: SourceManager, def: Loc, trigger: Loc, bodySize: nat, steps: seq<SubstStep>)
    returns (base: Loc, tokens: seq<Loc>)
    requires sm.Valid() && trigger < sm.nextOffset
    requires CallersKnown(sm.nextOffset + bodySize + 1, steps)
    modifies sm
    ensures sm.Valid()
    ensures base == old(sm.nextOffset) && tokens == Numbering(base, TokensAfter(steps)).tokens
    ensures base < sm.nextOffset
    ensures forall loc :: 0 <= loc < base ==> sm.LogicalOf(loc) == old(sm.LogicalOf(loc))
    ensures var start := base + bodySize + 1;
            && sm.nextOffset == NextAfter(start, steps)
            && forall loc :: base <= loc < sm.nextOffset ==>
                 CallerAt(start, steps, trigger, loc) < sm.nextOffset
                 && sm.LogicalOf(loc) == sm.LogicalOf(CallerAt(start, steps, trigger, loc))
  {
    hide SourceLocations.Logical, TableOk, CountAfter;
    base := sm.CreateMacroEntry(def, trigger, bodySize);
    var buffer := new SubstBuffer(base);
    ghost var start := base + bodySize + 1;
    assert steps[..0] == [];
    for k := 0 to |steps|
      invariant sm.Valid() && base < sm.nextOffset && fresh(buffer) && buffer.base == base
      invariant buffer.Contents() == Numbering(base, TokensAfter(steps[..k]))
      invariant sm.nextOffset == NextAfter(start, steps[..k])
      invariant forall loc :: 0 <= loc < old(sm.nextOffset) ==> sm.LogicalOf(loc) == old(sm.LogicalOf(loc))
      invariant forall loc :: base <= loc < sm.nextOffset ==>
                  CallerAt(start, steps[..k], trigger, loc) < sm.nextOffset
                  && sm.LogicalOf(loc) == sm.LogicalOf(CallerAt(start, steps[..k], trigger, loc))
    {
      ghost var init, now := steps[..k], steps[..k + 1];
      assert now[..|now| - 1] == init && now[|now| - 1] == steps[k];
      match steps[k] {
        case Do(a) =>
          buffer.Perform(a);
          NumberedIsNumbering(buffer.Contents());
        case MakeEntry(argDef, caller, size) =>
          var unused := sm.CreateMacroEntry(argDef, caller, size);
      }
    }
    assert steps[..|steps|] == steps;
    tokens := buffer.expandedTokens;
  }

  /** expand_function_macro: the tokens are numbered from an entry sized by the macro body, which they may outgrow;
      the second entry, sized by the tokens, brings next_offset above every one of them. A token is reported where the
      caller of the entry is that its number falls in: at the trigger, unless it has outgrown the body into an entry made
      for an expansion inside an argument. All tokens are reported where the trigger is if and only if every entry made
      below the end of the tokens has a caller that is. */
  method ExpandFunctionMacro(sm: SourceManager, def: Loc, trigger: Loc, bodySize: nat, steps: seq<SubstStep>)
    returns (base: Loc, pushed: seq<Loc>)
    requires sm.Valid() && trigger < sm.nextOffset
    requires CallersKnown(sm.nextOffset + bodySize + 1, steps)
    modifies sm
    ensures sm.Valid()
    ensures base == old(sm.nextOffset) && pushed == Numbering(base, TokensAfter(steps)).tokens
    ensures forall i :: 0 <= i < |pushed| ==> old(sm.nextOffset) <= pushed[i] < sm.nextOffset
    ensures forall loc :: 0 <= loc < old(sm.nextOffset) ==> sm.LogicalOf(loc) == old(sm.LogicalOf(loc))
    ensures forall i :: 0 <= i < |pushed| ==>
              sm.LogicalOf(pushed[i]) == sm.LogicalOf(CallerAt(base + bodySize + 1, steps, trigger, pushed[i]))
    ensures (forall i :: 0 <= i < |pushed| ==> sm.LogicalOf(pushed[i]) == old(sm.LogicalOf(trigger)))
       <==> (forall k :: StartsBelow(base + bodySize + 1, steps, k, base + |pushed|) ==>
               sm.LogicalOf(steps[k].caller) == old(sm.LogicalOf(trigger)))
  {
    hide SourceLocations.Logical, TableOk, StartsBelow, TokensAfter, NextAfter, CallersKnown;
    base, pushed := NumberReplacement(sm, def, trigger, bodySize, steps);
    ghost var start := base + bodySize + 1;
    var second := sm.CreateMacroEntry(def, trigger, |pushed|);
    forall i | 0 <= i < |pushed|
      ensures sm.LogicalOf(pushed[i]) == sm.LogicalOf(CallerAt(start, steps, trigger, pushed[i]))
    {
      OutsideIsTrigger(start, steps, trigger, pushed[i]);
      assert pushed[i] == base + i;
    }
    ReportedExactly(sm.slocEntryTable, sm.files, sm.nextOffset, start, steps, trigger, base, pushed);
  }

  /** An argument of one token that names a macro of five, handed through a macro whose body is the parameter alone. */
  function FiveThroughOne(def: Loc, trigger: Loc, innerDef: Loc, inner: Loc): seq<SubstStep> {
    [MakeEntry(def, trigger, 1), MakeEntry(innerDef, inner, 5), Do(Append(5))]
  }

  /** From a body of one token, the fifth token's number falls in the inner macro's entry, the others in the trigger's. */
  lemma OutgrownTokenShowsArgument(start: Loc, def: Loc, trigger: Loc, innerDef: Loc, inner: Loc)
    requires start >= 2
    ensures var steps := FiveThroughOne(def, trigger, innerDef, inner);
            && TokensAfter(steps) == 5
            && (forall loc :: start - 2 <= loc < start + 2 ==> CallerAt(start, steps, trigger, loc) == trigger)
            && CallerAt(start, steps, trigger, start + 2) == inner
            && (inner < start && trigger < start ==> CallersKnown(start, steps))
  {
    var a, b, c := MakeEntry(def, trigger, 1), MakeEntry(innerDef, inner, 5), Do(Append(5));
    var steps := [a, b, c];
    assert steps[..0] == [] && steps[..1] == [a] && steps[..2] == [a, b] && [a, b][..1] == [a] && [a][..0] == [];
    assert NextAfter(start, [a]) == start + 2 && NextAfter(start, [a, b]) == start + 8;
    assert TokensAfter([a, b]) == TokensAfter([a]) == TokensAfter([]) == 0;
    assert NextAfter(start, steps) == start + 8;
    forall loc | start - 2 <= loc <= start + 2
      ensures CallerAt(start, steps, trigger, loc) == if loc == start + 2 then inner else trigger {
      assert CallerAt(start, [a], trigger, loc) == trigger;
      assert CallerAt(start, [a, b], trigger, loc) == if loc == start + 2 then inner else trigger;
    }
  }

  /** For I(F), with I the identity and F five tokens, the fifth of the five tokens is reported at F, in column 3, and the
      trigger is I, in column 1. */
  method ReportFiveThroughOne() returns (sm: SourceManager, trigger: Loc, pushed: seq<Loc>)
    ensures fresh(sm) && sm.Valid() && |pushed| == 5
    ensures sm.LogicalOf(trigger) == LogicalLocation("a.c", 1, 1) && sm.LogicalOf(pushed[4]) == LogicalLocation("a.c", 1, 3)
  {
    hide SourceLocations.Logical, TableOk, CallerAt, StartsBelow, FiveThroughOne, TokensAfter, CallersKnown, LineStarts;
    sm := new SourceManager();
    var id := sm.CreateFileEntry("a.c", "I(F)");
    trigger := 1;
    assert sm.slocEntryTable == [FileEntry(1, 0)] && sm.nextOffset == 6;
    OneLine(sm.slocEntryTable, sm.files, sm.nextOffset, 1);
    OneLine(sm.slocEntryTable, sm.files, sm.nextOffset, 3);
    OutgrownTokenShowsArgument(8, 1, 1, 1, 3);
    var base;
    base, pushed := ExpandFunctionMacro(sm, 1, trigger, 1, FiveThroughOne(1, 1, 1, 3));
    assert pushed[4] == 10;
  }

  lemma OneLine(entries: seq<Entry>, files: seq<FileSrc>, next: Loc, loc: Loc)
    requires TableOk(entries, files, next) && entries == [FileEntry(1, 0)] && 1 <= loc <= 4
    requires files == [FileSrc("a.c", "I(F)", LineStarts("I(F)"), [], [])]
    ensures Logical(entries, files, next, loc) == LogicalLocation("a.c", 1, loc)
  {
    var text := Before("I(F)", loc - 1);
    NoNewline(text);
  }

  lemma {:induction false} NoNewline(text: string)
    requires '\n' !in text
    ensures Newlines(text) == 0 && LineStart(text) == 0
  {
    if text != "" {
      NoNewline(text[..|text| - 1]);
    }
  }

  // ---------------------------------------------------------------- every run of the preprocessor

  /** An open function-macro expansion. */
  datatype Frame = Frame(trigger: Loc, built: Built)

  /** The table, the locations of the tokens still in circulation, and the expansions under construction,
      innermost last. */
  datatype State = State(entries: seq<Entry>, files: seq<FileSrc>, next: Loc, live: set<Loc>, frames: seq<Frame>)

  datatype Step =
    | NewFile(file: FileSrc)
    | Lex(loc: Loc)
    | ObjectMacro(def: Loc, trigger: Loc, size: nat)
    | BeginFunction(def: Loc, trigger: Loc, bodySize: nat)
    | Subst(action: Action)
    | Argument(def: Loc, size: nat)
    | EndFunction(def: Loc)

  function Top(s: State): Frame
    requires s.frames != []
  {
    s.frames[|s.frames| - 1]
  }

  function Below(s: State): seq<Frame>
    requires s.frames != []
  {
    s.frames[..|s.frames| - 1]
  }

  /** A macro is only triggered by a token in circulation; argument expansion works inside an open frame. */
  ghost predicate Enabled(s: State, step: Step) {
    match step
    case NewFile(f) => FileOk(f)
    case Lex(loc) => 0 < loc < s.next
    case ObjectMacro(_, trigger, _) => trigger in s.live
    case BeginFunction(_, trigger, _) => trigger in s.live
    case Subst(_) => s.frames != []
    case Argument(_, _) => s.frames != []
    case EndFunction(_) => s.frames != []
  }

  function WithEntry(s: State, def: Loc, caller: Loc, size: nat): State {
    s.(entries := s.entries + [Expansion(s.next, def, caller)], next := s.next + size + 1)
  }

  ghost function After(s: State, step: Step): State
    requires Enabled(s, step)
  {
    match step
    case NewFile(f) =>
      s.(entries := s.entries + [FileEntry(s.next, |s.files|)], files := s.files + [f], next := s.next + |f.buffer| + 1)
    case Lex(loc) => s.(live := s.live + {loc})
    case ObjectMacro(def, trigger, size) =>
      WithEntry(s, def, trigger, size).(live := s.live + set loc | loc in Numbering(s.next, size).tokens)
    case BeginFunction(def, trigger, bodySize) =>
      WithEntry(s, def, trigger, bodySize).(frames := s.frames + [Frame(trigger, Numbering(s.next, 0))])
    case Subst(a) =>
      var top := Top(s);
      s.(frames := Below(s) + [top.(built := Numbering(top.built.base, CountAfter(|top.built.tokens|, a)))])
    case Argument(def, size) => WithEntry(s, def, Top(s).trigger, size)
    case EndFunction(def) =>
      var top := Top(s);
      WithEntry(s, def, top.trigger, |top.built.tokens|).(
        live := s.live + (set loc | loc in top.built.tokens), frames := Below(s))
  }

  /** The steps make the entries the manager makes: one for the file or the expansion, at the next location, which moves past
      it by its size and one more; nothing else makes an entry. */
  lemma StepsMakeEntries(s: State, step: Step)
    requires Enabled(s, step)
    ensures var t := After(s, step);
            match step
            case NewFile(f) => t.entries == s.entries + [FileEntry(s.next, |s.files|)] && t.files == s.files + [f]
                               && t.next == s.next + |f.buffer| + 1
            case Lex(loc) => t.entries == s.entries && t.next == s.next && t.live == s.live + {loc}
            case ObjectMacro(def, trigger, size) =>
              t.entries == s.entries + [Expansion(s.next, def, trigger)] && t.next == s.next + size + 1
              && (forall loc :: loc in t.live <==> loc in s.live || s.next <= loc < s.next + size)
            case BeginFunction(def, trigger, size) => t.entries == s.entries + [Expansion(s.next, def, trigger)] && t.next == s.next + size + 1
            case Subst(_) => t.entries == s.entries && t.next == s.next
            case Argument(def, size) => t.entries == s.entries + [Expansion(s.next, def, Top(s).trigger)] && t.next == s.next + size + 1
            case EndFunction(def) =>
              t.entries == s.entries + [Expansion(s.next, def, Top(s).trigger)] && t.next == s.next + |Top(s).built.tokens| + 1
              && (forall loc :: loc in t.live <==> loc in s.live || loc in Top(s).built.tokens)
  {
    if step.ObjectMacro? {
      var tokens := Numbering(s.next, step.size).tokens;
      forall loc ensures loc in tokens <==> s.next <= loc < s.next + step.size {
        if s.next <= loc < s.next + step.size {
          assert tokens[loc - s.next] == loc;
        }
      }
    }
  }

  ghost predicate FrameOk(f: Frame, next: Loc) {
    f.trigger < f.built.base < next && Numbered(f.built)
  }

  /** Every expansion's caller lies below it, every token in circulation lies below next_offset, and every token
      under construction is numbered from its entry. */
  ghost predicate Inv(s: State) {
    && TableOk(s.entries, s.files, s.next)
    && (forall loc :: loc in s.live ==> 0 < loc < s.next)
    && (forall i :: 0 <= i < |s.frames| ==> FrameOk(s.frames[i], s.next))
  }

  /** Every step keeps the invariant, and every location handed out before keeps its meaning. */
  lemma StepKeepsInv(s: State, step: Step)
    requires Inv(s) && Enabled(s, step)
    ensures Inv(After(s, step)) && s.next <= After(s, step).next
    ensures forall loc :: 0 <= loc < s.next ==>
              Logical(After(s, step).entries, After(s, step).files, After(s, step).next, loc)
              == Logical(s.entries, s.files, s.next, loc)
  {
    hide TableOk, Logical, FileOk;
    var t := After(s, step);
    assert s.files + [] == s.files;
    TableIsSorted(s.entries, s.files, s.next);
    match step
    case NewFile(f) =>
      Appended(s.entries, s.files, s.next, FileEntry(s.next, |s.files|), [f], t.next);
    case Lex(_) =>
    case ObjectMacro(def, trigger, size) =>
      Appended(s.entries, s.files, s.next, Expansion(s.next, def, trigger), [], t.next);
    case BeginFunction(def, trigger, size) =>
      Appended(s.entries, s.files, s.next, Expansion(s.next, def, trigger), [], t.next);
      NumberedIsNumbering(Numbering(s.next, 0));
      assert FrameOk(t.frames[|s.frames|], t.next);
    case Subst(a) =>
      assert FrameOk(Top(s), s.next);
      NumberedIsNumbering(Top(t).built);
    case Argument(def, size) =>
      assert FrameOk(Top(s), s.next);
      Appended(s.entries, s.files, s.next, Expansion(s.next, def, Top(s).trigger), [], t.next);
    case EndFunction(def) =>
      assert FrameOk(Top(s), s.next);
      Appended(s.entries, s.files, s.next, Expansion(s.next, def, Top(s).trigger), [], t.next);
  }

  ghost predicate Runs(s: State, steps: seq<Step>)
    decreases |steps|
  {
    steps == [] || (Enabled(s, steps[0]) && Runs(After(s, steps[0]), steps[1..]))
  }

  ghost function Final(s: State, steps: seq<Step>): State
    requires Runs(s, steps)
    decreases |steps|
  {
    if steps == [] then s else Final(After(s, steps[0]), steps[1..])
  }

  /** Over whole runs, nested argument expansions included: callers lie strictly below their expansions, so the
      chain to a logical location is well founded for every token ever in circulation, and what a location means
      never changes afterwards. */
  lemma {:induction false} RunsKeepLocationsWellFounded(s: State, steps: seq<Step>)
    requires Inv(s) && Runs(s, steps)
    ensures Inv(Final(s, steps)) && s.next <= Final(s, steps).next
    ensures forall loc :: 0 <= loc < s.next ==>
              Logical(Final(s, steps).entries, Final(s, steps).files, Final(s, steps).next, loc)
              == Logical(s.entries, s.files, s.next, loc)
    decreases |steps|
  {
    if steps != [] {
      hide Logical;
      StepKeepsInv(s, steps[0]);
      RunsKeepLocationsWellFounded(After(s, steps[0]), steps[1..]);
    }
  }

  /** The first entry alone would not do: with a one-token body and a three-token argument the last token's
      location is not below next_offset until the second entry is made. */
  lemma BodyEntryIsTooSmall(s: State, def: Loc, trigger: Loc)
    requires Inv(s) && trigger in s.live
    ensures var open := After(s, BeginFunction(def, trigger, 1));
            var grown := After(open, Subst(Append(3)));
            var done := After(grown, EndFunction(def));
            && s.next + 2 in Top(grown).built.tokens && !(s.next + 2 < grown.next)
            && s.next + 2 in done.live && s.next + 2 < done.next
  {
    var open := After(s, BeginFunction(def, trigger, 1));
    var grown := After(open, Subst(Append(3)));
    assert Top(open).built == Numbering(s.next, 0);
    assert Top(grown).built == Numbering(s.next, 3);
    assert Numbering(s.next, 3).tokens[2] == s.next + 2;
  }
}
