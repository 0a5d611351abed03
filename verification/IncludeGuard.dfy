/** The include-guard scanner: a file it accepts with guard M is skipped on re-inclusion while M is
    defined. When is that skip what running the conditional machine over the file would do? */
module IncludeGuard {
  import opened Basics
  import opened Conditionals

  /** A file line as the scanner classifies it. A '#' that no directive name follows ends the scan. */
  datatype FileLine = Plainly(line: Line) | Malformed

  /** The guard name of an opening line of the shape #ifndef M or #if !defined(M). */
  function GuardName(o: Opener): Option<Name> {
    match o
    case Ifdef(Some(n), true) => Some(n)
    case If(NotDefined(n)) => Some(n)
    case _ => None
  }

  datatype ScanState = Prefix | ExpectDefine(guard: Name) | InGuard(guard: Name, depth: nat) | AfterGuard(guard: Name)

  /** One line of the scan; None is a rejection. */
  function ScanLine(st: ScanState, l: FileLine): Option<ScanState> {
    match l
    case Malformed => None
    case Plainly(line) =>
      if line == P(Blank) then Some(st)
      else if line.P? && line.plain.Text? then (if st.InGuard? then Some(st) else None)
      else if line == P(NullDirective) then (if st.ExpectDefine? then None else Some(st))
      else
        match st
        case Prefix =>
          (match line
           case P(PragmaOnce) => Some(Prefix)
           case Open(o) => (match GuardName(o) case None => None case Some(n) => Some(ExpectDefine(n)))
           case _ => None)
        case ExpectDefine(n) =>
          if line.P? && line.plain.Define? && line.plain.name == n then Some(InGuard(n, 1)) else None
        case InGuard(n, depth) =>
          if line.Open? then Some(InGuard(n, depth + 1))
          else if line.Endif? then
            (if depth == 0 then None else if depth == 1 then Some(AfterGuard(n)) else Some(InGuard(n, depth - 1)))
          else Some(st)
        case AfterGuard(_) => None
  }

  function ScanFrom(st: ScanState, file: seq<FileLine>): Option<ScanState>
    decreases file
  {
    if file == [] then Some(st)
    else
      match ScanLine(st, file[0])
      case None => None
      case Some(st') => ScanFrom(st', file[1..])
  }

  /** The guard the scanner reports for a file. */
  function Guard(file: seq<FileLine>): Option<Name> {
    match ScanFrom(Prefix, file)
    case Some(AfterGuard(n)) => Some(n)
    case _ => None
  }

  /** The scanning loop of the source. */
  method DetectIncludeGuard(file: seq<FileLine>) returns (accepted: bool, guardMacro: Name, sawPragmaOnce: bool)
    ensures accepted <==> Guard(file).Some?
    ensures accepted ==> guardMacro == Guard(file).value
    ensures accepted ==> (sawPragmaOnce <==> OnceInHeading(file))
  {
    accepted, guardMacro, sawPragmaOnce := false, "", false;
    var st := Prefix;
    for i := 0 to |file|
      invariant ScanFrom(st, file[i..]) == ScanFrom(Prefix, file)
      invariant !st.Prefix? ==> guardMacro == st.guard
      invariant st.Prefix? ==> (sawPragmaOnce || OnceInHeading(file[i..]) <==> OnceInHeading(file))
      invariant !st.Prefix? ==> (sawPragmaOnce <==> OnceInHeading(file))
    {
      assert file[i..][1..] == file[i + 1..];
      var l := file[i];
      if l.Malformed? {
        return;
      }
      var line := l.line;
      if line == P(Blank) {
        continue;
      }
      if line.P? && line.plain.Text? {
        if st.InGuard? {
          continue;
        }
        return;
      }
      if line == P(NullDirective) {
        if st.ExpectDefine? {
          return;
        }
        continue;
      }
      match st {
        case Prefix =>
          if line == P(PragmaOnce) {
            sawPragmaOnce := true;
            continue;
          }
          if !line.Open? || GuardName(line.opener).None? {
            return;
          }
          guardMacro := GuardName(line.opener).value;
          st := ExpectDefine(guardMacro);
        case ExpectDefine(_) =>
          if !(line.P? && line.plain.Define? && line.plain.name == guardMacro) {
            return;
          }
          st := InGuard(guardMacro, 1);
        case InGuard(_, depth) =>
          if line.Open? {
            st := InGuard(guardMacro, depth + 1);
          } else if line.Endif? {
            if depth == 0 {
              return;
            }
            st := if depth == 1 then AfterGuard(guardMacro) else InGuard(guardMacro, depth - 1);
          }
        case AfterGuard(_) =>
          return;
      }
    }
    accepted := st.AfterGuard?;
  }

  /** #pragma once stands before the first #if-family line. */
  predicate OnceInHeading(file: seq<FileLine>) {
    file != [] && !(file[0].Plainly? && file[0].line.Open?) &&
    (file[0] == Plainly(P(PragmaOnce)) || OnceInHeading(file[1..]))
  }

  // ---------------------------------------------------------------- the shape of accepted files

  function Lines(file: seq<FileLine>): seq<Line>
    requires Malformed !in file
  {
    seq(|file|, i requires 0 <= i < |file| => assert file[i] in file; file[i].line)
  }

  predicate Inert(l: Line) {
    l == P(Blank) || l == P(NullDirective) || l == P(PragmaOnce)
  }

  predicate AllInert(lines: seq<Line>) {
    forall i :: 0 <= i < |lines| ==> Inert(lines[i])
  }

  /** Lines that stay inside d open sections and return to exactly d. */
  predicate StaysInside(lines: seq<Line>, d: nat) {
    if lines == [] then d == 1
    else
      match lines[0]
      case Open(_) => StaysInside(lines[1..], d + 1)
      case Endif => d > 1 && StaysInside(lines[1..], d - 1)
      case _ => StaysInside(lines[1..], d)
  }

  /** prefix, opening line, everything up to the closing #endif, suffix. */
  datatype Parts = Parts(prefix: seq<Line>, opener: Opener, interior: seq<Line>, suffix: seq<Line>)

  function Whole(p: Parts): seq<Line> {
    p.prefix + ([Open(p.opener)] + (p.interior + ([Endif] + p.suffix)))
  }

  predicate GuardShape(p: Parts, guard: Name) {
    && AllInert(p.prefix) && AllInert(p.suffix)
    && GuardName(p.opener) == Some(guard)
    && StaysInside(p.interior, 1)
  }

  /** Behind the section, not even #pragma once may stand. */
  predicate AllEmpty(lines: seq<Line>) {
    forall i :: 0 <= i < |lines| ==> lines[i] == P(Blank) || lines[i] == P(NullDirective)
  }

  /** The first line of the section that is not blank defines the guard. */
  predicate DefinesFirst(lines: seq<Line>, guard: Name) {
    lines != [] &&
    if lines[0] == P(Blank) then DefinesFirst(lines[1..], guard)
    else lines[0].P? && lines[0].plain.Define? && lines[0].plain.name == guard
  }

  /** The shape of accepted files, exactly. */
  predicate AcceptedShape(p: Parts, guard: Name) {
    && GuardShape(p, guard) && DefinesFirst(p.interior, guard) && AllEmpty(p.suffix)
    && (p.opener == Ifdef(Some(guard), true) || p.opener == If(NotDefined(guard)))
  }

  lemma LinesCons(file: seq<FileLine>)
    requires file != [] && Malformed !in file
    ensures Malformed !in file[1..] && file[0].Plainly?
    ensures Lines(file) == [file[0].line] + Lines(file[1..])
  {
    assert file == [file[0]] + file[1..];
    assert file[0] in file;
  }

  lemma {:induction false} AcceptedHasNoMalformed(st: ScanState, file: seq<FileLine>)
    requires ScanFrom(st, file).Some?
    ensures Malformed !in file
    decreases |file|
  {
    if file != [] {
      AcceptedHasNoMalformed(ScanLine(st, file[0]).value, file[1..]);
      assert file == [file[0]] + file[1..];
    }
  }

  lemma {:induction false} SuffixIsInert(n: Name, file: seq<FileLine>)
    requires Malformed !in file && ScanFrom(AfterGuard(n), file).Some?
    ensures ScanFrom(AfterGuard(n), file) == Some(AfterGuard(n)) && AllInert(Lines(file)) && AllEmpty(Lines(file))
    decreases |file|
  {
    if file != [] {
      LinesCons(file);
      SuffixIsInert(n, file[1..]);
    }
  }

  lemma {:induction false} SplitInterior(n: Name, depth: nat, file: seq<FileLine>)
    returns (interior: seq<Line>, suffix: seq<Line>)
    requires depth > 0 && Malformed !in file
    requires ScanFrom(InGuard(n, depth), file).Some? && ScanFrom(InGuard(n, depth), file).value.AfterGuard?
    ensures Lines(file) == interior + ([Endif] + suffix)
    ensures StaysInside(interior, depth) && AllInert(suffix) && AllEmpty(suffix)
    ensures ScanFrom(InGuard(n, depth), file).value.guard == n
    decreases |file|
  {
    LinesCons(file);
    var line := file[0].line;
    if line.Endif? && depth == 1 {
      SuffixIsInert(n, file[1..]);
      interior, suffix := [], Lines(file[1..]);
    } else {
      var inner;
      var depth' := if line.Open? then depth + 1 else if line.Endif? then depth - 1 else depth;
      inner, suffix := SplitInterior(n, depth', file[1..]);
      interior := [line] + inner;
      assert interior[1..] == inner;
    }
  }

  lemma {:induction false} SplitBeforeDefine(n: Name, file: seq<FileLine>)
    returns (interior: seq<Line>, suffix: seq<Line>)
    requires Malformed !in file
    requires ScanFrom(ExpectDefine(n), file).Some? && ScanFrom(ExpectDefine(n), file).value.AfterGuard?
    ensures Lines(file) == interior + ([Endif] + suffix)
    ensures StaysInside(interior, 1) && AllInert(suffix) && AllEmpty(suffix) && DefinesFirst(interior, n)
    ensures ScanFrom(ExpectDefine(n), file).value.guard == n
    decreases |file|
  {
    LinesCons(file);
    var inner;
    if file[0].line == P(Blank) {
      inner, suffix := SplitBeforeDefine(n, file[1..]);
    } else {
      inner, suffix := SplitInterior(n, 1, file[1..]);
    }
    interior := [file[0].line] + inner;
    assert interior[1..] == inner;
  }

  lemma {:induction false} SplitPrefix(file: seq<FileLine>) returns (p: Parts)
    requires Malformed !in file && Guard(file).Some?
    ensures Lines(file) == Whole(p) && AcceptedShape(p, Guard(file).value)
    ensures OnceInHeading(file) <==> P(PragmaOnce) in p.prefix
    decreases |file|
  {
    LinesCons(file);
    var line := file[0].line;
    if line.Open? {
      var n := GuardName(line.opener).value;
      var interior, suffix := SplitBeforeDefine(n, file[1..]);
      p := Parts([], line.opener, interior, suffix);
      assert Whole(p) == [line] + (interior + ([Endif] + suffix));
    } else {
      assert Inert(line);
      var q := SplitPrefix(file[1..]);
      p := q.(prefix := [line] + q.prefix);
      assert Whole(p) == [line] + Whole(q);
    }
  }

  /** Every accepted file is white space, one section guarded by the reported name, and white space. */
  lemma AcceptedFilesHaveGuardShape(file: seq<FileLine>) returns (p: Parts)
    requires Guard(file).Some?
    ensures Malformed !in file && Lines(file) == Whole(p) && GuardShape(p, Guard(file).value)
  {
    AcceptedHasNoMalformed(Prefix, file);
    p := SplitPrefix(file);
  }

  /** And every file of that shape is accepted: a file is accepted with a guard if and only if it is a heading of blank
      lines, lone # and #pragma once, one section that opens on the guard and defines it first, and blank lines and lone #. */
  lemma AcceptedExactly(file: seq<FileLine>, guard: Name)
    ensures Guard(file) == Some(guard) <==>
            Malformed !in file && exists p :: Lines(file) == Whole(p) && AcceptedShape(p, guard)
  {
    hide AcceptedShape, Whole;
    if Guard(file) == Some(guard) {
      AcceptedHasNoMalformed(Prefix, file);
      var p := SplitPrefix(file);
    }
    if Malformed !in file {
      if p :| Lines(file) == Whole(p) && AcceptedShape(p, guard) {
        ShapeIsAccepted(file, p, guard);
      }
    }
  }

  /** The scan has seen #pragma once exactly if it stands in the heading. */
  lemma OnceIsSeenInHeading(file: seq<FileLine>) returns (p: Parts)
    requires Guard(file).Some?
    ensures Malformed !in file && Lines(file) == Whole(p) && AcceptedShape(p, Guard(file).value)
    ensures OnceInHeading(file) <==> P(PragmaOnce) in p.prefix
  {
    AcceptedHasNoMalformed(Prefix, file);
    p := SplitPrefix(file);
  }

  lemma {:induction false} EmptySuffixScans(n: Name, file: seq<FileLine>)
    requires Malformed !in file && AllEmpty(Lines(file))
    ensures ScanFrom(AfterGuard(n), file) == Some(AfterGuard(n))
    decreases |file|
  {
    if file != [] {
      LinesCons(file);
      assert Lines(file)[0] == file[0].line && Lines(file)[1..] == Lines(file[1..]);
      EmptySuffixScans(n, file[1..]);
    }
  }

  lemma {:induction false} InteriorScans(n: Name, depth: nat, file: seq<FileLine>, interior: seq<Line>, suffix: seq<Line>)
    requires depth > 0 && Malformed !in file && Lines(file) == interior + ([Endif] + suffix)
    requires StaysInside(interior, depth) && AllEmpty(suffix)
    ensures ScanFrom(InGuard(n, depth), file) == Some(AfterGuard(n))
    decreases |file|
  {
    assert Lines(file) != [];
    LinesCons(file);
    assert Lines(file)[0] == file[0].line && Lines(file)[1..] == Lines(file[1..]);
    if interior == [] {
      assert Lines(file)[1..] == suffix;
      EmptySuffixScans(n, file[1..]);
    } else {
      assert Lines(file)[1..] == interior[1..] + ([Endif] + suffix);
      var line := interior[0];
      var depth' := if line.Open? then depth + 1 else if line.Endif? then depth - 1 else depth;
      InteriorScans(n, depth', file[1..], interior[1..], suffix);
    }
  }

  lemma {:induction false} DefiningScans(n: Name, file: seq<FileLine>, interior: seq<Line>, suffix: seq<Line>)
    requires Malformed !in file && Lines(file) == interior + ([Endif] + suffix)
    requires StaysInside(interior, 1) && DefinesFirst(interior, n) && AllEmpty(suffix)
    ensures ScanFrom(ExpectDefine(n), file) == Some(AfterGuard(n))
    decreases |file|
  {
    assert Lines(file) != [];
    LinesCons(file);
    assert Lines(file)[0] == file[0].line == interior[0] && Lines(file)[1..] == Lines(file[1..]);
    assert Lines(file)[1..] == interior[1..] + ([Endif] + suffix);
    if interior[0] == P(Blank) {
      DefiningScans(n, file[1..], interior[1..], suffix);
    } else {
      InteriorScans(n, 1, file[1..], interior[1..], suffix);
    }
  }

  lemma {:induction false} ShapeIsAccepted(file: seq<FileLine>, p: Parts, guard: Name)
    requires Malformed !in file && Lines(file) == Whole(p) && AcceptedShape(p, guard)
    ensures ScanFrom(Prefix, file) == Some(AfterGuard(guard))
    decreases |file|
  {
    assert Lines(file) != [];
    LinesCons(file);
    assert Lines(file)[0] == file[0].line && Lines(file)[1..] == Lines(file[1..]);
    if p.prefix == [] {
      assert Lines(file)[1..] == p.interior + ([Endif] + p.suffix);
      DefiningScans(guard, file[1..], p.interior, p.suffix);
    } else {
      var q := p.(prefix := p.prefix[1..]);
      assert Inert(p.prefix[0]) && p.prefix[0] == file[0].line;
      assert Lines(file)[1..] == Whole(q);
      ShapeIsAccepted(file[1..], q, guard);
    }
  }

  /** #pragma once / #if !defined(G) / #define G / x / #endif / # */
  function ExampleFile(): seq<FileLine> {
    [Plainly(P(PragmaOnce)), Plainly(Open(If(NotDefined("G")))), Plainly(P(Blank)), Plainly(P(Define("G", ""))),
     Plainly(P(Text("x"))), Plainly(Endif), Plainly(P(NullDirective))]
  }

  lemma ExampleIsAccepted()
    ensures Guard(ExampleFile()) == Some("G") && OnceInHeading(ExampleFile())
  {
    var f := ExampleFile();
    var st := ScanFrom(InGuard("G", 1), f[4..]);
    assert f[1..][1..] == f[2..] && f[2..][1..] == f[3..] && f[3..][1..] == f[4..] && f[4..][1..] == f[5..];
    assert f[5..][1..] == f[6..] && f[6..][1..] == [];
    assert ScanFrom(AfterGuard("G"), f[6..]) == Some(AfterGuard("G"));
    assert ScanFrom(InGuard("G", 1), f[5..]) == Some(AfterGuard("G"));
    assert ScanFrom(ExpectDefine("G"), f[3..]) == st == Some(AfterGuard("G"));
    assert ScanFrom(Prefix, f[1..]) == st;
  }

  /** The scanner accepts it with guard G and reports #pragma once. */
  method DetectExample() returns (accepted: bool, guard: Name, once: bool)
    ensures accepted && guard == "G" && once
  {
    hide Guard, OnceInHeading;
    ExampleIsAccepted();
    accepted, guard, once := DetectIncludeGuard(ExampleFile());
  }

  // ---------------------------------------------------------------- when the skip is right

  /** An alternative that can take over (or stop with an error) although the guard is defined. */
  predicate Live(a: Alternative, guard: Name) {
    match a
    case Else => true
    case Elif(NotDefined(n)) => n != guard && !IsBuiltinDefined(n)
    case Elif(Opaque(_)) => true
    case Elifdef(Some(n), true) => n != guard && !IsBuiltinDefined(n)
    case Elifdef(_, _) => true
  }

  /** No live #else-family line belongs to the guard section itself. */
  predicate NoLiveAlternative(lines: seq<Line>, d: nat, guard: Name) {
    lines == [] ||
    match lines[0]
    case Open(_) => NoLiveAlternative(lines[1..], d + 1, guard)
    case Endif => NoLiveAlternative(lines[1..], if d == 0 then 0 else d - 1, guard)
    case Alt(a) => (d == 1 ==> !Live(a, guard)) && NoLiveAlternative(lines[1..], d, guard)
    case P(_) => NoLiveAlternative(lines[1..], d, guard)
  }

  /** The machine is skipping before every line and at the end, and meets no error. */
  ghost predicate AlwaysSkipping(lines: seq<Line>, s: State, oracle: Oracle) {
    s.skipping &&
    (lines != [] ==>
       Step(lines[0], s, oracle).Ok? && AlwaysSkipping(lines[1..], Step(lines[0], s, oracle).value, oracle))
  }

  /** The state just after the opening line of a guard whose name is defined. */
  function AfterOpener(below: seq<Frame>, w: World): State {
    State(below + [Frame(false, false)], true, w)
  }

  lemma OpenerFails(o: Opener, guard: Name, below: seq<Frame>, w: World, oracle: Oracle)
    requires GuardName(o) == Some(guard) && guard in w.macros
    ensures StepOpener(o, State(below, false, w), oracle) == Ok(AfterOpener(below, w))
  {
  }

  lemma DeadAlternativeFails(a: Alternative, guard: Name, w: World, oracle: Oracle)
    requires !Live(a, guard) && guard in w.macros
    ensures TestAlternative(a, w, oracle) == Ok((false, w))
  {
  }

  /** Inside the guard section, d sections deep, with everything above the guard's own frame already answered. */
  ghost predicate Within(s: State, below: seq<Frame>, d: nat, w: World) {
    && d >= 1 && |s.stack| == |below| + d && s.skipping && s.world == w
    && s.stack[..|below| + 1] == below + [Frame(false, false)]
    && (forall i :: |below| < i < |s.stack| ==> s.stack[i] == Frame(true, false))
  }

  lemma WithinStep(line: Line, s: State, below: seq<Frame>, d: nat, w: World, guard: Name, oracle: Oracle)
    requires Within(s, below, d, w) && guard in w.macros
    requires line.Endif? ==> d > 1
    requires line.Alt? && d == 1 ==> !Live(line.alternative, guard)
    ensures Step(line, s, oracle).Ok?
    ensures Within(Step(line, s, oracle).value, below,
                   if line.Open? then d + 1 else if line.Endif? then d - 1 else d, w)
  {
    match line
    case P(_) =>
    case Open(_) =>
    case Endif =>
    case Alt(a) =>
      if d == 1 {
        assert Last(s.stack) == s.stack[..|below| + 1][|below|];
        DeadAlternativeFails(a, guard, w, oracle);
        assert ButLast(s.stack) + [Frame(false, false)] == s.stack;
      } else {
        assert ButLast(s.stack) + [Frame(true, false)] == s.stack;
      }
  }

  lemma {:induction false} InteriorIsSkipped(lines: seq<Line>, s: State, below: seq<Frame>, d: nat, w: World,
                                             guard: Name, oracle: Oracle)
    requires Within(s, below, d, w) && guard in w.macros
    requires StaysInside(lines, d) && NoLiveAlternative(lines, d, guard)
    ensures AlwaysSkipping(lines, s, oracle)
    ensures RunLines(lines, s, oracle) == Ok(AfterOpener(below, w))
    decreases |lines|
  {
    if lines == [] {
      assert s.stack == s.stack[..|below| + 1];
    } else {
      WithinStep(lines[0], s, below, d, w, guard, oracle);
      var d' := if lines[0].Open? then d + 1 else if lines[0].Endif? then d - 1 else d;
      InteriorIsSkipped(lines[1..], Step(lines[0], s, oracle).value, below, d', w, guard, oracle);
    }
  }

  lemma {:induction false} InertLinesDoNothing(lines: seq<Line>, s: State, oracle: Oracle)
    requires AllInert(lines)
    ensures RunLines(lines, s, oracle) == Ok(s)
  {
    if lines != [] {
      assert Inert(lines[0]);
      assert s.(world := s.world) == s;
      InertLinesDoNothing(lines[1..], s, oracle);
    }
  }

  /** Skipping an accepted file is right: with the guard defined, and no live alternative in the guard section,
      running the machine emits nothing, changes no macro, evaluates nothing and restores the stack. */
  lemma GuardedFileIsSkippable(p: Parts, guard: Name, below: seq<Frame>, w: World, oracle: Oracle)
    requires GuardShape(p, guard) && guard in w.macros && TopActive(below)
    requires NoLiveAlternative(p.interior, 1, guard)
    ensures RunLines(Whole(p), State(below, false, w), oracle) == Ok(State(below, false, w))
  {
    var s, inside := State(below, false, w), AfterOpener(below, w);
    RunConcat(p.prefix, [Open(p.opener)] + (p.interior + ([Endif] + p.suffix)), s, oracle);
    InertLinesDoNothing(p.prefix, s, oracle);
    RunCons(Open(p.opener), p.interior + ([Endif] + p.suffix), s, oracle);
    OpenerFails(p.opener, guard, below, w, oracle);
    RunConcat(p.interior, [Endif] + p.suffix, inside, oracle);
    assert inside.stack[..|below| + 1] == below + [Frame(false, false)];
    InteriorIsSkipped(p.interior, inside, below, 1, w, guard, oracle);
    RunCons(Endif, p.suffix, inside, oracle);
    assert ButLast(inside.stack) == below;
    InertLinesDoNothing(p.suffix, s, oracle);
  }

  lemma {:induction false} InertLinesHaveNoAlternative(lines: seq<Line>, tail: seq<Line>, d: nat, guard: Name)
    requires AllInert(lines)
    ensures NoLiveAlternative(lines + tail, d, guard) <==> NoLiveAlternative(tail, d, guard)
    decreases |lines|
  {
    if lines == [] {
      assert lines + tail == tail;
    } else {
      assert Inert(lines[0]);
      assert (lines + tail)[1..] == lines[1..] + tail;
      InertLinesHaveNoAlternative(lines[1..], tail, d, guard);
    }
  }

  lemma {:induction false} OnlyTheInteriorMatters(lines: seq<Line>, tail: seq<Line>, d: nat, guard: Name)
    requires d >= 1 && StaysInside(lines, d) && NoLiveAlternative(tail, 1, guard)
    ensures NoLiveAlternative(lines + tail, d, guard) <==> NoLiveAlternative(lines, d, guard)
    decreases |lines|
  {
    if lines == [] {
      assert lines + tail == tail;
    } else {
      assert (lines + tail)[1..] == lines[1..] + tail;
      var d' := if lines[0].Open? then d + 1 else if lines[0].Endif? then d - 1 else d;
      OnlyTheInteriorMatters(lines[1..], tail, d', guard);
    }
  }

  /** The condition can be read off the file itself. */
  lemma ConditionOnTheFile(p: Parts, guard: Name)
    requires GuardShape(p, guard)
    ensures NoLiveAlternative(Whole(p), 0, guard) <==> NoLiveAlternative(p.interior, 1, guard)
  {
    var close := [Endif] + p.suffix;
    assert close[1..] == p.suffix && p.suffix + [] == p.suffix;
    InertLinesHaveNoAlternative(p.suffix, [], 0, guard);
    OnlyTheInteriorMatters(p.interior, close, 1, guard);
    assert ([Open(p.opener)] + (p.interior + close))[1..] == p.interior + close;
    InertLinesHaveNoAlternative(p.prefix, [Open(p.opener)] + (p.interior + close), 0, guard);
  }

  /** For every accepted file: if its guard is defined and no live alternative stands at depth 1, skipping the
      file is what processing it would have done. */
  lemma AcceptedFileIsSkippable(file: seq<FileLine>, below: seq<Frame>, w: World, oracle: Oracle)
    requires Guard(file).Some? && Guard(file).value in w.macros && TopActive(below)
    ensures Malformed !in file
    ensures NoLiveAlternative(Lines(file), 0, Guard(file).value) ==>
              RunLines(Lines(file), State(below, false, w), oracle) == Ok(State(below, false, w))
  {
    var p := AcceptedFilesHaveGuardShape(file);
    ConditionOnTheFile(p, Guard(file).value);
    if NoLiveAlternative(p.interior, 1, Guard(file).value) {
      GuardedFileIsSkippable(p, Guard(file).value, below, w, oracle);
    }
  }

  // ---------------------------------------------------------------- when the interior is skipped

  /** An environment and evaluator under which a live alternative wakes the section up. */
  lemma LiveAlternativeWakes(a: Alternative, guard: Name) returns (macros: Env, oracle: Oracle)
    requires Live(a, guard)
    ensures guard in macros
    ensures forall w: World :: w.macros == macros ==>
              match TestAlternative(a, w, oracle)
              case Err(_) => true
              case Ok((taken, _)) => taken
  {
    oracle := (t: string, e: Env) => Some(true);
    macros := map[guard := ""];
    match a
    case Elifdef(Some(n), false) => macros := macros[n := ""];
    case _ =>
  }

  lemma {:induction false} LiveAlternativeIsFound(lines: seq<Line>, d: nat, guard: Name)
    returns (before: seq<Line>, a: Alternative, after: seq<Line>)
    requires d >= 1 && StaysInside(lines, d) && !NoLiveAlternative(lines, d, guard)
    ensures lines == before + ([Alt(a)] + after) && Live(a, guard)
    ensures StaysInside(before, d) && NoLiveAlternative(before, d, guard)
    decreases |lines|
  {
    if lines[0].Alt? && d == 1 && Live(lines[0].alternative, guard) {
      before, a, after := [], lines[0].alternative, lines[1..];
    } else {
      var d' := if lines[0].Open? then d + 1 else if lines[0].Endif? then d - 1 else d;
      var b;
      b, a, after := LiveAlternativeIsFound(lines[1..], d', guard);
      before := [lines[0]] + b;
      assert before[1..] == b;
    }
  }

  lemma {:induction false} SkippingThrough(a: seq<Line>, b: seq<Line>, s: State, oracle: Oracle)
    requires AlwaysSkipping(a + b, s, oracle)
    ensures RunLines(a, s, oracle).Ok? && AlwaysSkipping(b, RunLines(a, s, oracle).value, oracle)
    decreases |a|
  {
    if a == [] {
      assert a + b == b;
    } else {
      assert (a + b)[1..] == a[1..] + b;
      SkippingThrough(a[1..], b, Step(a[0], s, oracle).value, oracle);
    }
  }

  /** In every environment that defines the guard and for every evaluator, the machine skips the whole interior. */
  ghost predicate InteriorAlwaysSkipped(p: Parts, guard: Name) {
    forall below: seq<Frame>, w: World, oracle: Oracle :: guard in w.macros ==>
      AlwaysSkipping(p.interior, AfterOpener(below, w), oracle)
  }

  /** The machine skips the whole interior exactly when the guard section has no live alternative. That is enough for
      skipping the file to be right, but more than is needed: GuardedSkip has the exact condition. */
  lemma SkippedExactlyWithoutLiveAlternative(p: Parts, guard: Name)
    requires GuardShape(p, guard)
    ensures InteriorAlwaysSkipped(p, guard) <==> NoLiveAlternative(p.interior, 1, guard)
  {
    if NoLiveAlternative(p.interior, 1, guard) {
      forall below: seq<Frame>, w: World, oracle: Oracle | guard in w.macros
        ensures AlwaysSkipping(p.interior, AfterOpener(below, w), oracle)
      {
        var s := AfterOpener(below, w);
        assert s.stack[..|below| + 1] == below + [Frame(false, false)];
        InteriorIsSkipped(p.interior, s, below, 1, w, guard, oracle);
      }
    } else {
      var before, a, after := LiveAlternativeIsFound(p.interior, 1, guard);
      var macros, oracle := LiveAlternativeWakes(a, guard);
      var w := World(macros, [], []);
      var s := AfterOpener([], w);
      assert s.stack[..1] == [] + [Frame(false, false)];
      InteriorIsSkipped(before, s, [], 1, w, guard, oracle);
      if AlwaysSkipping(p.interior, s, oracle) {
        SkippingThrough(before, [Alt(a)] + after, s, oracle);
        assert false;
      }
      assert !InteriorAlwaysSkipped(p, guard);
    }
  }

  /** #ifndef G / #define G / #else / x / #endif is accepted, yet with G defined it is not skippable: x comes out. */
  lemma AcceptedButNotSkippable(oracle: Oracle)
    ensures var file := [Plainly(Open(Ifdef(Some("G"), true))), Plainly(P(Define("G", ""))), Plainly(Alt(Else)),
                         Plainly(P(Text("x"))), Plainly(Endif)];
            var w := World(map["G" := ""], [], []);
            Guard(file) == Some("G") && Malformed !in file
            && RunLines(Lines(file), State([], false, w), oracle)
               == Ok(State([], false, w.(out := [Text("x")])))
  {
    var l0, l1, l2, l3, l4 := Plainly(Open(Ifdef(Some("G"), true))), Plainly(P(Define("G", ""))), Plainly(Alt(Else)),
                              Plainly(P(Text("x"))), Plainly(Endif);
    var file := [l0, l1, l2, l3, l4];
    assert file[1..] == [l1, l2, l3, l4] && file[1..][1..] == [l2, l3, l4];
    assert [l2, l3, l4][1..] == [l3, l4] && [l3, l4][1..] == [l4] && [l4][1..] == [];
    assert ScanFrom(AfterGuard("G"), []) == Some(AfterGuard("G"));
    assert ScanFrom(InGuard("G", 1), [l4]) == Some(AfterGuard("G"));
    assert ScanFrom(InGuard("G", 1), [l3, l4]) == Some(AfterGuard("G"));
    assert ScanFrom(InGuard("G", 1), [l2, l3, l4]) == Some(AfterGuard("G"));
    assert ScanFrom(ExpectDefine("G"), [l1, l2, l3, l4]) == Some(AfterGuard("G"));
    var w := World(map["G" := ""], [], []);
    var elseBranch := Branch(Else, Item(Text("x"), Nil), NoMore);
    var tree := Section(Ifdef(Some("G"), true), Item(Define("G", ""), Nil), elseBranch, Nil);
    MachineRunsTheTree(tree, [], w, oracle);
    assert Flatten(Item(Define("G", ""), Nil)) == [l1.line];
    assert Flatten(Item(Text("x"), Nil)) == [l3.line];
    assert FlattenBranches(elseBranch) == [l2.line, l3.line];
    assert Lines(file) == Flatten(tree);
    assert RunItems(Item(Text("x"), Nil), w, oracle) == Ok(Act(Text("x"), w));
    assert RunBranches(elseBranch, w, oracle) == Ok(Act(Text("x"), w));
    assert w.out + [Text("x")] == [Text("x")];
    assert TestOpener(Ifdef(Some("G"), true), w, oracle) == Ok((false, w));
  }
}
