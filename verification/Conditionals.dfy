/** Conditional inclusion (C17 section 6.10.1): the conditional_stack / skipping machine of the
    preprocessor, at directive-line level, against a recursive semantics of nested sections. */
module Conditionals {
  import opened Basics

  type Name = string

  /** The macro table: names and replacement lists. */
  type Env = map<Name, string>

  /** Names that answer `defined` without being in the macro table. */
  predicate IsBuiltinDefined(n: Name) {
    n == "__has_attribute" || n == "__has_builtin" || n == "__has_c_attribute" ||
    n == "__has_cpp_attribute" || n == "__has_embed" || n == "__has_extension" ||
    n == "__has_feature" || n == "__has_warning" || n == "__is_identifier" ||
    n == "__has_include" || n == "__has_include_next"
  }

  predicate Defined(n: Name, env: Env) {
    n in env || IsBuiltinDefined(n)
  }

  /** A controlling expression: the guard shape `!defined(X)`, or any other token sequence. */
  datatype Expr = NotDefined(name: Name) | Opaque(text: string)

  datatype Error = BadExpression | ExpectedIdentifier | ExtraTokens | ElseWithoutIf | ElifWithoutIf | EndifWithoutIf

  datatype Result<T> = Ok(value: T) | Err(error: Error)

  /** The value of an opaque expression in a macro environment; None is a diagnosed expression. */
  type Oracle = (string, Env) -> Option<bool>

  datatype Plain =
    | Blank                                  // white space and comments
    | NullDirective                          // a lone '#'
    | PragmaOnce
    | Text(text: string)
    | Define(name: Name, body: string)
    | Undef(gone: Name)
    | Other(directive: string)               // #include, #error, #line, ...

  datatype Opener = If(cond: Expr) | Ifdef(name: Option<Name>, negated: bool)

  datatype Alternative = Elif(cond: Expr) | Elifdef(name: Option<Name>, negated: bool) | Else

  datatype Line = P(plain: Plain) | Open(opener: Opener) | Alt(alternative: Alternative) | Endif

  // ---------------------------------------------------------------- what active lines do

  /** What is observable: the macro table, the text and directives acted on, the expressions evaluated. */
  datatype World = World(macros: Env, out: seq<Plain>, evaluated: seq<(string, Env)>)

  function Act(p: Plain, w: World): World {
    match p
    case Blank => w
    case NullDirective => w
    case PragmaOnce => w
    case Text(_) => w.(out := w.out + [p])
    case Define(n, body) => w.(macros := w.macros[n := body])
    case Undef(n) => w.(macros := w.macros - {n})
    case Other(_) => w.(out := w.out + [p])
  }

  function Evaluate(e: Expr, w: World, oracle: Oracle): Result<(bool, World)> {
    match e
    case NotDefined(n) => Ok((!Defined(n, w.macros), w))
    case Opaque(t) =>
      match oracle(t, w.macros)
      case None => Err(BadExpression)
      case Some(b) => Ok((b, w.(evaluated := w.evaluated + [(t, w.macros)])))
  }

  function TestName(n: Option<Name>, negated: bool, w: World): Result<(bool, World)> {
    match n
    case None => Err(ExpectedIdentifier)
    case Some(x) => Ok((Defined(x, w.macros) != negated, w))
  }

  function TestOpener(o: Opener, w: World, oracle: Oracle): Result<(bool, World)> {
    match o
    case If(e) => Evaluate(e, w, oracle)
    case Ifdef(n, negated) => TestName(n, negated, w)
  }

  function TestAlternative(a: Alternative, w: World, oracle: Oracle): Result<(bool, World)> {
    match a
    case Elif(e) => Evaluate(e, w, oracle)
    case Elifdef(n, negated) => TestName(n, negated, w)
    case Else => Ok((true, w))
  }

  // ---------------------------------------------------------------- the tree semantics

  datatype Items =
    | Nil
    | Item(plain: Plain, rest: Items)
    | Section(opener: Opener, body: Items, branches: Branches, rest: Items)

  datatype Branches = NoMore | Branch(head: Alternative, body: Items, more: Branches)

  /** The source lines of a nested text. */
  function Flatten(items: Items): seq<Line> {
    match items
    case Nil => []
    case Item(p, rest) => [P(p)] + Flatten(rest)
    case Section(o, body, branches, rest) =>
      [Open(o)] + (Flatten(body) + (FlattenBranches(branches) + ([Endif] + Flatten(rest))))
  }

  function FlattenBranches(b: Branches): seq<Line> {
    match b
    case NoMore => []
    case Branch(a, body, more) => [Alt(a)] + (Flatten(body) + FlattenBranches(more))
  }

  lemma SectionText(o: Opener, body: Items, b: Branches, rest: Items, tail: seq<Line>)
    ensures Flatten(Section(o, body, b, rest)) + tail
         == [Open(o)] + (Flatten(body) + (FlattenBranches(b) + ([Endif] + (Flatten(rest) + tail))))
  {
  }

  lemma BranchText(a: Alternative, body: Items, more: Branches, tail: seq<Line>)
    ensures FlattenBranches(Branch(a, body, more)) + tail
         == [Alt(a)] + (Flatten(body) + (FlattenBranches(more) + tail))
  {
  }

  /** Nested text acts on the world: a section acts through the first branch whose test holds. */
  function RunItems(items: Items, w: World, oracle: Oracle): Result<World> {
    match items
    case Nil => Ok(w)
    case Item(p, rest) => RunItems(rest, Act(p, w), oracle)
    case Section(o, body, branches, rest) =>
      match TestOpener(o, w, oracle)
      case Err(e) => Err(e)
      case Ok((taken, w1)) =>
        match (if taken then RunItems(body, w1, oracle) else RunBranches(branches, w1, oracle))
        case Err(e) => Err(e)
        case Ok(w2) => RunItems(rest, w2, oracle)
  }

  function RunBranches(b: Branches, w: World, oracle: Oracle): Result<World> {
    match b
    case NoMore => Ok(w)
    case Branch(a, body, more) =>
      match TestAlternative(a, w, oracle)
      case Err(e) => Err(e)
      case Ok((taken, w1)) =>
        if taken then RunItems(body, w1, oracle) else RunBranches(more, w1, oracle)
  }

  /** What stands behind a condition is its value: the section goes on with the body if the expression holds and with the
      branches otherwise, once it has been evaluated in the macros of that moment. */
  lemma IfChoosesByValue(t: string, body: Items, branches: Branches, rest: Items, w: World, oracle: Oracle)
    ensures var w' := w.(evaluated := w.evaluated + [(t, w.macros)]);
            RunItems(Section(If(Opaque(t)), body, branches, rest), w, oracle) ==
              match oracle(t, w.macros)
              case None => Err(BadExpression)
              case Some(true) => AndOn(RunItems(body, w', oracle), rest, oracle)
              case Some(false) => AndOn(RunBranches(branches, w', oracle), rest, oracle)
    ensures var w' := w.(evaluated := w.evaluated + [(t, w.macros)]);
            RunBranches(Branch(Elif(Opaque(t)), body, branches), w, oracle) ==
              match oracle(t, w.macros)
              case None => Err(BadExpression)
              case Some(true) => RunItems(body, w', oracle)
              case Some(false) => RunBranches(branches, w', oracle)
  {
  }

  /** The same for names: a name decides by whether it is a macro or one of the names that always answer, and evaluates
      nothing; no name at all is an error; #else is taken if it is come to. */
  lemma NameChoosesByMacros(n: Name, negated: bool, body: Items, branches: Branches, rest: Items, w: World, oracle: Oracle)
    ensures RunItems(Section(Ifdef(Some(n), negated), body, branches, rest), w, oracle) ==
              AndOn(if (n in w.macros || n in AnsweringNames()) != negated then RunItems(body, w, oracle)
                    else RunBranches(branches, w, oracle), rest, oracle)
    ensures RunBranches(Branch(Elifdef(Some(n), negated), body, branches), w, oracle) ==
              if (n in w.macros || n in AnsweringNames()) != negated then RunItems(body, w, oracle)
              else RunBranches(branches, w, oracle)
    ensures RunItems(Section(If(NotDefined(n)), body, branches, rest), w, oracle) ==
              RunItems(Section(Ifdef(Some(n), true), body, branches, rest), w, oracle)
    ensures RunItems(Section(Ifdef(None, negated), body, branches, rest), w, oracle) == Err(ExpectedIdentifier)
    ensures RunBranches(Branch(Elifdef(None, negated), body, branches), w, oracle) == Err(ExpectedIdentifier)
    ensures RunBranches(Branch(Else, body, branches), w, oracle) == RunItems(body, w, oracle)
    ensures RunBranches(NoMore, w, oracle) == Ok(w)
  {
  }

  function AnsweringNames(): set<Name> {
    {"__has_attribute", "__has_builtin", "__has_c_attribute", "__has_cpp_attribute", "__has_embed", "__has_extension",
     "__has_feature", "__has_warning", "__is_identifier", "__has_include", "__has_include_next"}
  }

  function AndOn(r: Result<World>, rest: Items, oracle: Oracle): Result<World> {
    match r
    case Err(e) => Err(e)
    case Ok(w) => RunItems(rest, w, oracle)
  }

  /** What an active line does: text and other directives come out as they are, definitions change the one name they
      name, and the rest leaves no trace; nothing is evaluated. */
  lemma LinesActOnTheWorld(n: Name, text: string, rest: Items, w: World, oracle: Oracle)
    ensures RunItems(Item(Text(text), rest), w, oracle) == RunItems(rest, World(w.macros, w.out + [Text(text)], w.evaluated), oracle)
    ensures RunItems(Item(Other(text), rest), w, oracle) == RunItems(rest, World(w.macros, w.out + [Other(text)], w.evaluated), oracle)
    ensures RunItems(Item(Define(n, text), rest), w, oracle) == RunItems(rest, World(w.macros[n := text], w.out, w.evaluated), oracle)
    ensures RunItems(Item(Undef(n), rest), w, oracle) == RunItems(rest, World(w.macros - {n}, w.out, w.evaluated), oracle)
    ensures forall p :: p in {Blank, NullDirective, PragmaOnce} ==> RunItems(Item(p, rest), w, oracle) == RunItems(rest, w, oracle)
    ensures RunItems(Nil, w, oracle) == Ok(w)
  {
  }

  // ---------------------------------------------------------------- the machine, as functions of its state

  datatype Frame = Frame(wasSuccessful: bool, isActive: bool)

  datatype State = State(stack: seq<Frame>, skipping: bool, world: World)

  function Last(stack: seq<Frame>): Frame
    requires stack != []
  {
    stack[|stack| - 1]
  }

  function ButLast(stack: seq<Frame>): seq<Frame>
    requires stack != []
  {
    stack[..|stack| - 1]
  }

  function StepOpener(o: Opener, s: State, oracle: Oracle): Result<State> {
    if s.skipping then Ok(s.(stack := s.stack + [Frame(true, false)]))
    else
      match TestOpener(o, s.world, oracle)
      case Err(e) => Err(e)
      case Ok((b, w)) => Ok(State(s.stack + [Frame(b, b)], !b, w))
  }

  function WithoutIf(a: Alternative): Error {
    if a.Else? then ElseWithoutIf else ElifWithoutIf
  }

  function StepAlternative(a: Alternative, s: State, oracle: Oracle): Result<State> {
    if s.stack == [] then Err(WithoutIf(a))
    else if Last(s.stack).wasSuccessful then
      Ok(State(ButLast(s.stack) + [Frame(true, false)], true, s.world))
    else
      match TestAlternative(a, s.world, oracle)
      case Err(e) => Err(e)
      case Ok((b, w)) => Ok(State(ButLast(s.stack) + [Frame(b, b)], !b, w))
  }

  function StepEndif(s: State): Result<State> {
    if s.stack == [] then Err(EndifWithoutIf)
    else
      var below := ButLast(s.stack);
      Ok(State(below, below != [] && !Last(below).isActive, s.world))
  }

  function Step(line: Line, s: State, oracle: Oracle): Result<State> {
    match line
    case P(p) => Ok(if s.skipping then s else s.(world := Act(p, s.world)))
    case Open(o) => StepOpener(o, s, oracle)
    case Alt(a) => StepAlternative(a, s, oracle)
    case Endif => StepEndif(s)
  }

  function RunLines(lines: seq<Line>, s: State, oracle: Oracle): Result<State> {
    if lines == [] then Ok(s)
    else
      match Step(lines[0], s, oracle)
      case Err(e) => Err(e)
      case Ok(s') => RunLines(lines[1..], s', oracle)
  }

  function Then(r: Result<State>, lines: seq<Line>, oracle: Oracle): Result<State> {
    match r
    case Err(e) => Err(e)
    case Ok(s) => RunLines(lines, s, oracle)
  }

  lemma {:induction false} RunConcat(a: seq<Line>, b: seq<Line>, s: State, oracle: Oracle)
    ensures RunLines(a + b, s, oracle) == Then(RunLines(a, s, oracle), b, oracle)
    decreases |a|
  {
    if a == [] {
      assert a + b == b;
    } else {
      assert (a + b)[1..] == a[1..] + b;
      match Step(a[0], s, oracle)
      case Err(_) =>
      case Ok(s') => RunConcat(a[1..], b, s', oracle);
    }
  }

  lemma RunCons(line: Line, lines: seq<Line>, s: State, oracle: Oracle)
    ensures RunLines([line] + lines, s, oracle) == Then(Step(line, s, oracle), lines, oracle)
  {
    assert ([line] + lines)[1..] == lines;
  }

  // ---------------------------------------------------------------- invariants of every run

  ghost predicate SomeInactive(stack: seq<Frame>) {
    exists i :: 0 <= i < |stack| && !stack[i].isActive
  }

  ghost predicate Inv(s: State) {
    && (s.skipping <==> SomeInactive(s.stack))
    && (s.skipping <==> s.stack != [] && !Last(s.stack).isActive)
    && (forall i, j :: 0 <= i < j < |s.stack| && !s.stack[i].isActive ==> s.stack[j] == Frame(true, false))
    && (forall i :: 0 <= i < |s.stack| && s.stack[i].isActive ==> s.stack[i].wasSuccessful)
  }

  lemma StepKeepsInv(line: Line, s: State, oracle: Oracle)
    requires Inv(s)
    ensures Step(line, s, oracle).Ok? ==> Inv(Step(line, s, oracle).value)
  {
    var r := Step(line, s, oracle);
    if r.Ok? && !line.P? {
      var s' := r.value;
      if s'.stack != [] && !Last(s'.stack).isActive {
        assert SomeInactive(s'.stack);
      }
    }
  }

  /** The invariant holds after every run: `skipping` says whether some open section is inactive, and every
      section opened inside an inactive one is recorded as already answered. */
  lemma {:induction false} RunKeepsInv(lines: seq<Line>, s: State, oracle: Oracle)
    requires Inv(s)
    ensures RunLines(lines, s, oracle).Ok? ==> Inv(RunLines(lines, s, oracle).value)
    decreases |lines|
  {
    if lines != [] {
      StepKeepsInv(lines[0], s, oracle);
      match Step(lines[0], s, oracle)
      case Err(_) =>
      case Ok(s') => RunKeepsInv(lines[1..], s', oracle);
    }
  }

  /** How often the section at stack position d becomes active while it stays open. */
  ghost function Activations(lines: seq<Line>, s: State, d: nat, oracle: Oracle): nat
    requires d < |s.stack|
    decreases |lines|
  {
    if lines == [] then 0
    else
      match Step(lines[0], s, oracle)
      case Err(_) => 0
      case Ok(s') =>
        if |s'.stack| <= d then 0
        else
          (if !s.stack[d].isActive && s'.stack[d].isActive then 1 else 0)
          + Activations(lines[1..], s', d, oracle)
  }

  /** At most one branch of a section is ever active, and none after its first success. */
  lemma {:induction false} OneBranchPerSection(lines: seq<Line>, s: State, d: nat, oracle: Oracle)
    requires d < |s.stack| && Inv(s)
    ensures Activations(lines, s, d, oracle) <= if s.stack[d].wasSuccessful then 0 else 1
    decreases |lines|
  {
    if lines != [] {
      StepKeepsInv(lines[0], s, oracle);
      match Step(lines[0], s, oracle)
      case Err(_) =>
      case Ok(s') =>
        if d < |s'.stack| {
          OneBranchPerSection(lines[1..], s', d, oracle);
        }
    }
  }

  // ---------------------------------------------------------------- machine = tree semantics

  /** Nested text inside an inactive section changes nothing at all. */
  lemma {:induction false} SkippedItems(items: Items, s: State, oracle: Oracle)
    requires s.skipping && s.stack != [] && !Last(s.stack).isActive
    ensures RunLines(Flatten(items), s, oracle) == Ok(s)
    decreases items
  {
    match items
    case Nil =>
    case Item(p, rest) =>
      RunCons(P(p), Flatten(rest), s, oracle);
      SkippedItems(rest, s, oracle);
    case Section(o, body, branches, rest) =>
      var tail := [Endif] + Flatten(rest);
      var inner := s.(stack := s.stack + [Frame(true, false)]);
      RunCons(Open(o), Flatten(body) + (FlattenBranches(branches) + tail), s, oracle);
      RunConcat(Flatten(body), FlattenBranches(branches) + tail, inner, oracle);
      SkippedItems(body, inner, oracle);
      AnsweredBranches(branches, s.stack, Frame(true, false), tail, s.world, oracle);
      RunCons(Endif, Flatten(rest), inner, oracle);
      assert ButLast(inner.stack) == s.stack;
      SkippedItems(rest, s, oracle);
  }

  /** Once a section has been answered its further branches are passed over without a test. */
  lemma {:induction false} AnsweredBranches(b: Branches, below: seq<Frame>, f: Frame, tail: seq<Line>,
                                            w: World, oracle: Oracle)
    requires f.wasSuccessful
    ensures var start := State(below + [f], !f.isActive, w);
            var end := if b.NoMore? then start else State(below + [Frame(true, false)], true, w);
            RunLines(FlattenBranches(b) + tail, start, oracle) == RunLines(tail, end, oracle)
    decreases b
  {
    match b
    case NoMore =>
      assert FlattenBranches(b) + tail == tail;
    case Branch(a, body, more) =>
      var start := State(below + [f], !f.isActive, w);
      var skip := State(below + [Frame(true, false)], true, w);
      BranchText(a, body, more, tail);
      RunCons(Alt(a), Flatten(body) + (FlattenBranches(more) + tail), start, oracle);
      assert ButLast(start.stack) == below;
      RunConcat(Flatten(body), FlattenBranches(more) + tail, skip, oracle);
      SkippedItems(body, skip, oracle);
      AnsweredBranches(more, below, Frame(true, false), tail, w, oracle);
  }

  ghost predicate TopActive(stack: seq<Frame>) {
    stack != [] ==> Last(stack).isActive
  }

  function Continue(r: Result<World>, below: seq<Frame>, lines: seq<Line>, oracle: Oracle): Result<State> {
    match r
    case Err(e) => Err(e)
    case Ok(w) => RunLines(lines, State(below, false, w), oracle)
  }

  /** On every nested text the machine keeps exactly the text, evaluates exactly the conditions and leaves
      exactly the macros that the tree semantics does, and its stack comes back unchanged. */
  lemma MachineRunsTheTree(items: Items, below: seq<Frame>, w: World, oracle: Oracle)
    requires TopActive(below)
    ensures RunLines(Flatten(items), State(below, false, w), oracle)
         == match RunItems(items, w, oracle)
            case Err(e) => Err(e)
            case Ok(w') => Ok(State(below, false, w'))
  {
    ActiveItems(items, below, [], w, oracle);
    assert Flatten(items) + [] == Flatten(items);
  }

  lemma {:induction false} ActiveItems(items: Items, below: seq<Frame>, tail: seq<Line>, w: World, oracle: Oracle)
    requires TopActive(below)
    ensures RunLines(Flatten(items) + tail, State(below, false, w), oracle)
         == Continue(RunItems(items, w, oracle), below, tail, oracle)
    decreases items, 0
  {
    var s := State(below, false, w);
    match items
    case Nil =>
      assert Flatten(items) + tail == tail;
    case Item(p, rest) =>
      assert Flatten(items) + tail == [P(p)] + (Flatten(rest) + tail);
      RunCons(P(p), Flatten(rest) + tail, s, oracle);
      ActiveItems(rest, below, tail, Act(p, w), oracle);
    case Section(o, body, branches, rest) =>
      var close := [Endif] + (Flatten(rest) + tail);
      SectionText(o, body, branches, rest, tail);
      RunCons(Open(o), Flatten(body) + (FlattenBranches(branches) + close), s, oracle);
      match TestOpener(o, w, oracle)
      case Err(_) =>
      case Ok((taken, w1)) =>
        if taken {
          TakenBranch(body, branches, below, close, w1, oracle);
          match RunItems(body, w1, oracle)
          case Err(_) =>
          case Ok(w2) => CloseSection(rest, below, tail, w2, oracle);
        } else {
          var inner := State(below + [Frame(false, false)], true, w1);
          RunConcat(Flatten(body), FlattenBranches(branches) + close, inner, oracle);
          SkippedItems(body, inner, oracle);
          OpenBranches(branches, below, close, w1, oracle);
          match RunBranches(branches, w1, oracle)
          case Err(_) =>
          case Ok(w2) => CloseSection(rest, below, tail, w2, oracle);
        }
  }

  /** What is left of a section whose answer is in: run from #endif on, whatever the frame now says. */
  function AfterAnswer(r: Result<World>, below: seq<Frame>, close: seq<Line>, oracle: Oracle): Result<State> {
    match r
    case Err(e) => Err(e)
    case Ok(w) => if close == [] then Err(EndifWithoutIf) else Continue(Ok(w), below, close[1..], oracle)
  }

  lemma CloseSection(rest: Items, below: seq<Frame>, tail: seq<Line>, w: World, oracle: Oracle)
    requires TopActive(below)
    ensures AfterAnswer(Ok(w), below, [Endif] + (Flatten(rest) + tail), oracle)
         == RunLines(Flatten(rest) + tail, State(below, false, w), oracle)
    ensures RunLines(Flatten(rest) + tail, State(below, false, w), oracle)
         == Continue(RunItems(rest, w, oracle), below, tail, oracle)
    decreases rest, 1
  {
    assert ([Endif] + (Flatten(rest) + tail))[1..] == Flatten(rest) + tail;
    ActiveItems(rest, below, tail, w, oracle);
  }

  lemma EndifPops(below: seq<Frame>, f: Frame, close: seq<Line>, w: World, oracle: Oracle)
    requires TopActive(below) && close != [] && close[0] == Endif
    ensures RunLines(close, State(below + [f], !f.isActive, w), oracle) == AfterAnswer(Ok(w), below, close, oracle)
  {
    assert ButLast(below + [f]) == below;
  }

  lemma {:induction false} TakenBranch(body: Items, more: Branches, below: seq<Frame>, close: seq<Line>,
                                       w: World, oracle: Oracle)
    requires TopActive(below) && close != [] && close[0] == Endif
    ensures RunLines(Flatten(body) + (FlattenBranches(more) + close), State(below + [Frame(true, true)], false, w), oracle)
         == AfterAnswer(RunItems(body, w, oracle), below, close, oracle)
    decreases body, 1
  {
    var open := below + [Frame(true, true)];
    ActiveItems(body, open, FlattenBranches(more) + close, w, oracle);
    match RunItems(body, w, oracle)
    case Err(_) =>
    case Ok(w') =>
      AnsweredBranches(more, below, Frame(true, true), close, w', oracle);
      EndifPops(below, if more.NoMore? then Frame(true, true) else Frame(true, false), close, w', oracle);
  }

  lemma {:induction false} OpenBranches(b: Branches, below: seq<Frame>, close: seq<Line>, w: World, oracle: Oracle)
    requires TopActive(below) && close != [] && close[0] == Endif
    ensures RunLines(FlattenBranches(b) + close, State(below + [Frame(false, false)], true, w), oracle)
         == AfterAnswer(RunBranches(b, w, oracle), below, close, oracle)
    decreases b
  {
    var s := State(below + [Frame(false, false)], true, w);
    match b
    case NoMore =>
      assert FlattenBranches(b) + close == close;
      EndifPops(below, Frame(false, false), close, w, oracle);
    case Branch(a, body, more) =>
      BranchText(a, body, more, close);
      RunCons(Alt(a), Flatten(body) + (FlattenBranches(more) + close), s, oracle);
      assert ButLast(s.stack) == below;
      match TestAlternative(a, w, oracle)
      case Err(_) =>
      case Ok((taken, w1)) =>
        if taken {
          TakenBranch(body, more, below, close, w1, oracle);
        } else {
          var inner := State(below + [Frame(false, false)], true, w1);
          RunConcat(Flatten(body), FlattenBranches(more) + close, inner, oracle);
          SkippedItems(body, inner, oracle);
          OpenBranches(more, below, close, w1, oracle);
        }
  }

  // ---------------------------------------------------------------- which line sequences are nested

  /** Every #else-family line and #endif has an open section, and all sections are closed. */
  predicate Nested(lines: seq<Line>, depth: nat) {
    if lines == [] then depth == 0
    else
      match lines[0]
      case P(_) => Nested(lines[1..], depth)
      case Open(_) => Nested(lines[1..], depth + 1)
      case Alt(_) => depth > 0 && Nested(lines[1..], depth)
      case Endif => depth > 0 && Nested(lines[1..], depth - 1)
  }

  /** The longest nested text at the front of a line sequence. */
  lemma {:induction false} SplitItems(lines: seq<Line>, depth: nat) returns (items: Items, tail: seq<Line>)
    requires Nested(lines, depth)
    ensures lines == Flatten(items) + tail && Nested(tail, depth)
    ensures tail == [] || tail[0].Alt? || tail[0].Endif?
    decreases |lines|, 1
  {
    if lines == [] || lines[0].Alt? || lines[0].Endif? {
      return Nil, lines;
    }
    assert lines == [lines[0]] + lines[1..];
    if lines[0].P? {
      var rest;
      rest, tail := SplitItems(lines[1..], depth);
      items := Item(lines[0].plain, rest);
    } else {
      var body, bodyTail := SplitItems(lines[1..], depth + 1);
      var branches, close := SplitBranches(bodyTail, depth + 1);
      var rest;
      rest, tail := SplitItems(close, depth);
      items := Section(lines[0].opener, body, branches, rest);
      SectionText(lines[0].opener, body, branches, rest, tail);
    }
  }

  lemma {:induction false} SplitBranches(lines: seq<Line>, depth: nat) returns (branches: Branches, tail: seq<Line>)
    requires Nested(lines, depth) && depth > 0
    requires lines != [] && (lines[0].Alt? || lines[0].Endif?)
    ensures lines == FlattenBranches(branches) + ([Endif] + tail) && Nested(tail, depth - 1)
    decreases |lines|, 0
  {
    assert lines == [lines[0]] + lines[1..];
    if lines[0].Endif? {
      return NoMore, lines[1..];
    }
    var body, bodyTail := SplitItems(lines[1..], depth);
    var more;
    more, tail := SplitBranches(bodyTail, depth);
    branches := Branch(lines[0].alternative, body, more);
    BranchText(lines[0].alternative, body, more, [Endif] + tail);
  }

  /** A line sequence is the text of some tree exactly when its directives match up. */
  lemma NestedTextHasATree(lines: seq<Line>)
    ensures Nested(lines, 0) <==> exists items :: Flatten(items) == lines
  {
    if Nested(lines, 0) {
      var items, tail := SplitItems(lines, 0);
      assert tail == [];
      assert Flatten(items) + [] == Flatten(items);
    }
    forall items | Flatten(items) == lines ensures Nested(lines, 0) {
      TreeTextIsNested(items, [], 0);
      assert Flatten(items) + [] == Flatten(items);
    }
  }

  lemma {:induction false} TreeTextIsNested(items: Items, tail: seq<Line>, depth: nat)
    ensures Nested(Flatten(items) + tail, depth) <==> Nested(tail, depth)
    decreases items
  {
    match items
    case Nil =>
      assert Flatten(items) + tail == tail;
    case Item(p, rest) =>
      assert (Flatten(items) + tail)[1..] == Flatten(rest) + tail;
      TreeTextIsNested(rest, tail, depth);
    case Section(o, body, branches, rest) =>
      var close := [Endif] + (Flatten(rest) + tail);
      SectionText(o, body, branches, rest, tail);
      assert (Flatten(items) + tail)[1..] == Flatten(body) + (FlattenBranches(branches) + close);
      TreeTextIsNested(body, FlattenBranches(branches) + close, depth + 1);
      BranchTextIsNested(branches, close, depth + 1);
      assert close[1..] == Flatten(rest) + tail;
      TreeTextIsNested(rest, tail, depth);
  }

  lemma {:induction false} BranchTextIsNested(b: Branches, tail: seq<Line>, depth: nat)
    requires depth > 0
    ensures Nested(FlattenBranches(b) + tail, depth) <==> Nested(tail, depth)
    decreases b
  {
    match b
    case NoMore =>
      assert FlattenBranches(b) + tail == tail;
    case Branch(a, body, more) =>
      BranchText(a, body, more, tail);
      assert (FlattenBranches(b) + tail)[1..] == Flatten(body) + (FlattenBranches(more) + tail);
      TreeTextIsNested(body, FlattenBranches(more) + tail, depth);
      BranchTextIsNested(more, tail, depth);
  }

  /** The machine ends a run without error and with an empty stack only on nested text: an #else-family
      line or #endif outside every section is reported, and an open section stays on the stack. */
  lemma {:induction false} CleanRunsAreNested(lines: seq<Line>, s: State, oracle: Oracle)
    requires RunLines(lines, s, oracle).Ok?
    ensures RunLines(lines, s, oracle).value.stack == [] <==> Nested(lines, |s.stack|)
    decreases |lines|
  {
    if lines != [] {
      CleanRunsAreNested(lines[1..], Step(lines[0], s, oracle).value, oracle);
    }
  }

  // ---------------------------------------------------------------- the machine as the source keeps it

  class ConditionalMachine {
    var conditionalStack: seq<Frame>
    var skipping: bool
    var world: World
    const oracle: Oracle

    constructor (macros: Env, evaluate: Oracle)
      ensures Contents() == State([], false, World(macros, [], [])) && Inv(Contents())
      ensures oracle == evaluate
    {
      conditionalStack, skipping := [], false;
      world := World(macros, [], []);
      oracle := evaluate;
    }

    function Contents(): State
      reads this
    {
      State(conditionalStack, skipping, world)
    }

    method EvaluateConstantExpression(e: Expr) returns (r: Result<bool>)
      modifies `world
      ensures match Evaluate(e, old(world), oracle)
              case Err(x) => r == Err(x) && world == old(world)
              case Ok((b, w)) => r == Ok(b) && world == w
    {
      match e
      case NotDefined(n) =>
        r := Ok(!(n in world.macros || IsBuiltinDefined(n)));
      case Opaque(t) =>
        var v := oracle(t, world.macros);
        if v.None? {
          return Err(BadExpression);
        }
        world := world.(evaluated := world.evaluated + [(t, world.macros)]);
        r := Ok(v.value);
    }

    /** From active text: a condition that holds opens active text, and any other starts skipping. */
    method HandleIf(cond: Expr) returns (r: Result<()>)
      modifies this
      ensures !old(skipping) && cond.Opaque? && oracle(cond.text, old(world.macros)).Some? ==>
                var v := oracle(cond.text, old(world.macros)).value;
                r == Ok(()) && skipping == !v && conditionalStack == old(conditionalStack) + [Frame(v, v)]
      ensures old(skipping) ==> r == Ok(()) && skipping && world == old(world)
      ensures match StepOpener(If(cond), old(Contents()), oracle)
              case Err(x) => r == Err(x)
              case Ok(s) => r == Ok(()) && Contents() == s
    {
      if skipping {
        conditionalStack := conditionalStack + [Frame(true, false)];
        return Ok(());
      }
      var result := EvaluateConstantExpression(cond);
      if result.Err? {
        return Err(result.error);
      }
      conditionalStack := conditionalStack + [Frame(result.value, result.value)];
      skipping := !result.value;
      r := Ok(());
    }

    /** The line is checked before anything else, even while skipping; the stack only moves on a line without fault. */
    method HandleIfdef(name: Option<Name>, extra: bool, negated: bool) returns (r: Result<()>)
      modifies this
      ensures if name.None? then r == Err(ExpectedIdentifier) && Contents() == old(Contents())
              else if extra then r == Err(ExtraTokens) && Contents() == old(Contents())
              else r == Ok(()) && StepOpener(Ifdef(name, negated), old(Contents()), oracle) == Ok(Contents())
    {
      if name.None? {
        return Err(ExpectedIdentifier);
      }
      if extra {
        return Err(ExtraTokens);
      }
      if skipping {
        conditionalStack := conditionalStack + [Frame(true, false)];
        return Ok(());
      }
      var isDefined := name.value in world.macros || IsBuiltinDefined(name.value);
      var result := if negated then !isDefined else isDefined;
      conditionalStack := conditionalStack + [Frame(result, result)];
      skipping := !result;
      r := Ok(());
    }

    method SetTop(f: Frame)
      requires conditionalStack != []
      modifies `conditionalStack
      ensures conditionalStack == ButLast(old(conditionalStack)) + [f]
    {
      conditionalStack := conditionalStack[|conditionalStack| - 1 := f];
    }

    /** Active from here on exactly if no branch has been taken. */
    method HandleElse() returns (r: Result<()>)
      modifies this
      ensures if old(conditionalStack) == [] then r == Err(ElseWithoutIf)
              else r == Ok(()) && skipping == old(Last(conditionalStack)).wasSuccessful && world == old(world)
      ensures match StepAlternative(Else, old(Contents()), oracle)
              case Err(x) => r == Err(x)
              case Ok(s) => r == Ok(()) && Contents() == s
    {
      if conditionalStack == [] {
        return Err(ElseWithoutIf);
      }
      var state := conditionalStack[|conditionalStack| - 1];
      if state.wasSuccessful {
        SetTop(state.(isActive := false));
        skipping := true;
      } else {
        SetTop(Frame(true, true));
        skipping := false;
      }
      r := Ok(());
    }

    /** Decided by the condition if no branch has been taken, and not evaluated otherwise. */
    method HandleElif(cond: Expr) returns (r: Result<()>)
      requires Inv(Contents())
      modifies this
      ensures old(conditionalStack) == [] ==> r == Err(ElifWithoutIf)
      ensures old(conditionalStack) != [] && old(Last(conditionalStack)).wasSuccessful ==>
                r == Ok(()) && skipping && world == old(world)
      ensures old(conditionalStack) != [] && !old(Last(conditionalStack)).wasSuccessful && cond.Opaque?
                && oracle(cond.text, old(world.macros)).Some? ==>
                r == Ok(()) && skipping == !oracle(cond.text, old(world.macros)).value
      ensures match StepAlternative(Elif(cond), old(Contents()), oracle)
              case Err(x) => r == Err(x)
              case Ok(s) => r == Ok(()) && Contents() == s
    {
      if conditionalStack == [] {
        return Err(ElifWithoutIf);
      }
      var state := conditionalStack[|conditionalStack| - 1];
      if state.wasSuccessful {
        SetTop(state.(isActive := false));
        skipping := true;
      } else {
        var result := EvaluateConstantExpression(cond);
        if result.Err? {
          return Err(result.error);
        }
        if result.value {
          SetTop(Frame(true, true));
          skipping := false;
        } else {
          SetTop(state.(isActive := false));
          skipping := true;
        }
      }
      r := Ok(());
    }

    /** Decided by the name if no branch has been taken, and the name is not asked for otherwise. */
    method HandleElifdef(name: Option<Name>, negated: bool) returns (r: Result<()>)
      requires Inv(Contents())
      modifies this
      ensures old(conditionalStack) == [] ==> r == Err(ElifWithoutIf)
      ensures old(conditionalStack) != [] && old(Last(conditionalStack)).wasSuccessful ==>
                r == Ok(()) && skipping && world == old(world)
      ensures old(conditionalStack) != [] && !old(Last(conditionalStack)).wasSuccessful && name.Some? ==>
                r == Ok(()) && skipping == ((name.value in old(world.macros) || name.value in AnsweringNames()) == negated)
      ensures match StepAlternative(Elifdef(name, negated), old(Contents()), oracle)
              case Err(x) => r == Err(x)
              case Ok(s) => r == Ok(()) && Contents() == s
    {
      if conditionalStack == [] {
        return Err(ElifWithoutIf);
      }
      var state := conditionalStack[|conditionalStack| - 1];
      if state.wasSuccessful {
        SetTop(state.(isActive := false));
        skipping := true;
        return Ok(());
      }
      if name.None? {
        return Err(ExpectedIdentifier);
      }
      var isDefined := name.value in world.macros || IsBuiltinDefined(name.value);
      var result := if negated then !isDefined else isDefined;
      if result {
        SetTop(Frame(true, true));
        skipping := false;
      } else {
        SetTop(state.(isActive := false));
        skipping := true;
      }
      r := Ok(());
    }

    /** The section is gone, and what is around it decides again. */
    method HandleEndif() returns (r: Result<()>)
      modifies this
      ensures if old(conditionalStack) == [] then r == Err(EndifWithoutIf)
              else r == Ok(()) && conditionalStack == ButLast(old(conditionalStack)) && world == old(world)
                   && (skipping <==> conditionalStack != [] && !Last(conditionalStack).isActive)
      ensures match StepEndif(old(Contents()))
              case Err(x) => r == Err(x)
              case Ok(s) => r == Ok(()) && Contents() == s
    {
      if conditionalStack == [] {
        return Err(EndifWithoutIf);
      }
      conditionalStack := conditionalStack[..|conditionalStack| - 1];
      if conditionalStack == [] {
        skipping := false;
      } else {
        skipping := !conditionalStack[|conditionalStack| - 1].isActive;
      }
      r := Ok(());
    }

    method HandleLine(line: Line) returns (r: Result<()>)
      requires Inv(Contents())
      modifies this
      ensures match Step(line, old(Contents()), oracle)
              case Err(x) => r == Err(x)
              case Ok(s) => r == Ok(()) && Contents() == s && Inv(Contents())
    {
      StepKeepsInv(line, Contents(), oracle);
      match line
      case P(p) =>
        if !skipping {
          world := Act(p, world);
        }
        r := Ok(());
      case Open(o) =>
        if skipping {
          conditionalStack := conditionalStack + [Frame(true, false)];
          r := Ok(());
        } else {
          match o
          case If(cond) => r := HandleIf(cond);
          case Ifdef(name, negated) => r := HandleIfdef(name, false, negated);
        }
      case Alt(a) =>
        match a {
          case Elif(cond) => r := HandleElif(cond);
          case Elifdef(name, negated) => r := HandleElifdef(name, negated);
          case Else => r := HandleElse();
        }
      case Endif =>
        r := HandleEndif();
    }

    method ProcessLines(lines: seq<Line>) returns (r: Result<()>)
      requires Inv(Contents())
      modifies this
      ensures match RunLines(lines, old(Contents()), oracle)
              case Err(x) => r == Err(x)
              case Ok(s) => r == Ok(()) && Contents() == s && Inv(Contents())
    {
      for i := 0 to |lines|
        invariant Inv(Contents())
        invariant RunLines(lines[i..], Contents(), oracle) == RunLines(lines, old(Contents()), oracle)
      {
        assert lines[i..][1..] == lines[i + 1..];
        r := HandleLine(lines[i]);
        if r.Err? {
          return;
        }
      }
      r := Ok(());
    }
  }

  // ---------------------------------------------------------------- a worked example

  /** #define A / #if 1 / x / #elif 1 / y / #else / z / #endif / #ifndef A / u / #elif 0 / v / #else / w / #endif */
  function ExampleText(): seq<Line> {
    [P(Define("A", "")), Open(If(Opaque("1"))), P(Text("x")), Alt(Elif(Opaque("1"))), P(Text("y")), Alt(Else), P(Text("z")), Endif,
     Open(Ifdef(Some("A"), true)), P(Text("u")), Alt(Elif(Opaque("0"))), P(Text("v")), Alt(Else), P(Text("w")), Endif]
  }

  function OneIsTrue(text: string, macros: Env): Option<bool> {
    Some(text == "1")
  }

  /** x and w come out; the second 1 is not evaluated. */
  method RunExample() returns (w: World)
    ensures w.out == [Text("x"), Text("w")] && w.macros == map["A" := ""]
    ensures w.evaluated == [("1", map["A" := ""]), ("0", map["A" := ""])]
  {
    hide RunLines, RunItems, RunBranches, Flatten, FlattenBranches, Inv;
    var machine := new ConditionalMachine(map[], OneIsTrue);
    var r := machine.ProcessLines(ExampleText());
    w := machine.world;
    ExampleTree();
    ExampleOutcome();
    MachineRunsTheTree(ExampleItems(), [], World(map[], [], []), OneIsTrue);
  }

  function ExampleItems(): Items {
    Item(Define("A", ""),
    Section(If(Opaque("1")), Item(Text("x"), Nil), Branch(Elif(Opaque("1")), Item(Text("y"), Nil), Branch(Else, Item(Text("z"), Nil), NoMore)),
    Section(Ifdef(Some("A"), true), Item(Text("u"), Nil), Branch(Elif(Opaque("0")), Item(Text("v"), Nil), Branch(Else, Item(Text("w"), Nil), NoMore)),
    Nil)))
  }

  lemma ExampleTree()
    ensures Flatten(ExampleItems()) == ExampleText()
  {
  }

  lemma ExampleOutcome()
    ensures var macros := map["A" := ""];
            RunItems(ExampleItems(), World(map[], [], []), OneIsTrue)
            == Ok(World(macros, [Text("x"), Text("w")], [("1", macros), ("0", macros)]))
  {
    var none: Env := map[];
    var macros: Env := none["A" := ""];
    var one, zero := ("1", macros), ("0", macros);
    assert [] + [one] == [one] && [one] + [zero] == [one, zero];
    assert [] + [Text("x")] == [Text("x")] && [Text("x")] + [Text("w")] == [Text("x"), Text("w")];
    var w := World(macros, [Text("x")], [one]);
    var first, second := ExampleItems().rest, ExampleItems().rest.rest;
    assert RunItems(first.body, World(macros, [], [one]), OneIsTrue) == Ok(w);
    assert RunItems(first, World(macros, [], []), OneIsTrue) == RunItems(second, w, OneIsTrue);
    var last := World(macros, [Text("x"), Text("w")], [one, zero]);
    var else_ := second.branches.more;
    assert RunItems(else_.body, World(macros, [Text("x")], [one, zero]), OneIsTrue) == Ok(last);
    assert RunBranches(else_, World(macros, [Text("x")], [one, zero]), OneIsTrue) == Ok(last);
    assert RunBranches(second.branches, w, OneIsTrue) == Ok(last);
  }
}
