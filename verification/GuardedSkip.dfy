/** Exactly when skipping a guarded file is right: the branches of its guard section, run with the guard defined, leave
    the world as it was, for every macro table and every evaluator. The test runs them on what is known of each name. */
module GuardedSkip {
  import opened Basics
  import opened Conditionals
  import opened IncludeGuard

  // ---------------------------------------------------------------- sequencing trees

  function Append(a: Items, b: Items): Items {
    match a
    case Nil => b
    case Item(p, rest) => Item(p, Append(rest, b))
    case Section(o, body, branches, rest) => Section(o, body, branches, Append(rest, b))
  }

  function AndThen(r: Result<World>, items: Items, oracle: Oracle): Result<World> {
    match r
    case Err(e) => Err(e)
    case Ok(w) => RunItems(items, w, oracle)
  }

  lemma {:induction false} RunAppend(a: Items, b: Items, w: World, oracle: Oracle)
    ensures RunItems(Append(a, b), w, oracle) == AndThen(RunItems(a, w, oracle), b, oracle)
    decreases a
  {
    match a
    case Nil =>
    case Item(p, rest) => RunAppend(rest, b, Act(p, w), oracle);
    case Section(o, body, branches, rest) =>
      match TestOpener(o, w, oracle)
      case Err(_) =>
      case Ok((taken, w1)) =>
        match (if taken then RunItems(body, w1, oracle) else RunBranches(branches, w1, oracle))
        case Err(_) =>
        case Ok(w2) => RunAppend(rest, b, w2, oracle);
  }

  function Size(items: Items): nat {
    match items
    case Nil => 0
    case Item(_, rest) => 1 + Size(rest)
    case Section(_, body, branches, rest) => 1 + Size(body) + BranchesSize(branches) + Size(rest)
  }

  function BranchesSize(b: Branches): nat {
    match b
    case NoMore => 0
    case Branch(_, body, more) => 1 + Size(body) + BranchesSize(more)
  }

  lemma {:induction false} SizeAppend(a: Items, b: Items)
    ensures Size(Append(a, b)) == Size(a) + Size(b)
    decreases a
  {
    match a
    case Nil =>
    case Item(_, rest) => SizeAppend(rest, b);
    case Section(_, _, _, rest) => SizeAppend(rest, b);
  }

  // ---------------------------------------------------------------- what is known of names

  /** Names known to have been defined and undefined at the start, and the names changed since with what they are now. */
  datatype Known = Known(defined: set<Name>, undefined: set<Name>, changes: map<Name, Option<string>>)

  /** Whether a name is defined now; None if that is not known. */
  function Status(n: Name, k: Known): Option<bool> {
    if IsBuiltinDefined(n) then Some(true)
    else if n in k.changes then Some(k.changes[n].Some?)
    else if n in k.defined then Some(true)
    else if n in k.undefined then Some(false)
    else None
  }

  function Learn(n: Name, isDefined: bool, k: Known): Known {
    if isDefined then k.(defined := k.defined + {n}) else k.(undefined := k.undefined + {n})
  }

  /** Every changed name is undefined again, and is known to have been so. */
  predicate Restored(k: Known) {
    forall n :: n in k.changes ==> n in k.undefined && k.changes[n].None?
  }

  /** What a test asks: whether a name is defined, or something that is evaluated or refused, or nothing. */
  datatype Question = Always | IsDefined(name: Name, wanted: bool) | Unanswerable

  function ExprQuestion(e: Expr): Question {
    match e
    case NotDefined(n) => IsDefined(n, false)
    case Opaque(_) => Unanswerable
  }

  function NameQuestion(n: Option<Name>, negated: bool): Question {
    match n
    case None => Unanswerable
    case Some(x) => IsDefined(x, !negated)
  }

  function OpenerQuestion(o: Opener): Question {
    match o
    case If(e) => ExprQuestion(e)
    case Ifdef(n, negated) => NameQuestion(n, negated)
  }

  function AlternativeQuestion(a: Alternative): Question {
    match a
    case Elif(e) => ExprQuestion(e)
    case Elifdef(n, negated) => NameQuestion(n, negated)
    case Else => Always
  }

  /** Running the items leaves the world as it was at the start, whatever is not known. Texts, other directives,
      evaluated conditions and errors leave a trace; macros must be back to what they were. */
  predicate Quiet(items: Items, k: Known)
    decreases Size(items), 0
  {
    match items
    case Nil => Restored(k)
    case Item(p, rest) =>
      (match p
       case Text(_) => false
       case Other(_) => false
       case Define(n, body) => Quiet(rest, k.(changes := k.changes[n := Some(body)]))
       case Undef(n) => Quiet(rest, k.(changes := k.changes[n := None]))
       case _ => Quiet(rest, k))
    case Section(o, body, branches, rest) =>
      SizeAppend(body, rest);
      match OpenerQuestion(o)
      case Unanswerable => false
      case Always => Quiet(Append(body, rest), k)
      case IsDefined(n, wanted) =>
        match Status(n, k)
        case Some(b) => if b == wanted then Quiet(Append(body, rest), k) else QuietBranches(branches, rest, k)
        case None => Quiet(Append(body, rest), Learn(n, wanted, k)) && QuietBranches(branches, rest, Learn(n, !wanted, k))
  }

  /** The same for the branches still to be tried, and what follows their section. */
  predicate QuietBranches(b: Branches, rest: Items, k: Known)
    decreases BranchesSize(b) + Size(rest), 1
  {
    match b
    case NoMore => Quiet(rest, k)
    case Branch(a, body, more) =>
      SizeAppend(body, rest);
      match AlternativeQuestion(a)
      case Unanswerable => false
      case Always => Quiet(Append(body, rest), k)
      case IsDefined(n, wanted) =>
        match Status(n, k)
        case Some(b) => if b == wanted then Quiet(Append(body, rest), k) else QuietBranches(more, rest, k)
        case None => Quiet(Append(body, rest), Learn(n, wanted, k)) && QuietBranches(more, rest, Learn(n, !wanted, k))
  }

  // ---------------------------------------------------------------- what knowledge means

  /** The macro table at the start agrees with what is known of it. */
  ghost predicate Agrees(k: Known, start: Env) {
    (forall n :: n in k.defined ==> n in start) && (forall n :: n in k.undefined ==> n !in start)
  }

  /** Knowledge about a run that started in one world and is now in another, with nothing emitted or evaluated. */
  ghost predicate Describes(k: Known, start: World, now: World) {
    && Agrees(k, start.macros)
    && now.out == start.out && now.evaluated == start.evaluated
    && (forall n :: n in k.changes ==> (n in now.macros <==> k.changes[n].Some?))
    && (forall n :: n in k.changes && k.changes[n].Some? && n in now.macros ==> now.macros[n] == k.changes[n].value)
    && (forall n :: n !in k.changes ==> (n in now.macros <==> n in start.macros))
    && (forall n :: n !in k.changes && n in now.macros && n in start.macros ==> now.macros[n] == start.macros[n])
  }

  lemma StatusIsRight(n: Name, k: Known, start: World, now: World)
    requires Describes(k, start, now)
    ensures Status(n, k).Some? ==> Status(n, k).value == Defined(n, now.macros)
    ensures Status(n, k).None? ==> Describes(Learn(n, Defined(n, now.macros), k), start, now)
  {
  }

  lemma ActIsDescribed(p: Plain, k: Known, start: World, now: World)
    requires Describes(k, start, now)
    ensures p.Define? ==> Describes(k.(changes := k.changes[p.name := Some(p.body)]), start, Act(p, now))
    ensures p.Undef? ==> Describes(k.(changes := k.changes[p.gone := None]), start, Act(p, now))
    ensures p.Blank? || p.NullDirective? || p.PragmaOnce? ==> Act(p, now) == now
  {
  }

  lemma RestoredWorldIsTheStart(k: Known, start: World, now: World)
    requires Describes(k, start, now) && Restored(k)
    ensures now == start
  {
    assert forall n :: n in now.macros <==> n in start.macros;
    assert now.macros == start.macros;
  }

  /** What a test does on a described world, by its question. */
  function Answer(q: Question, w: World): bool {
    match q
    case Always => true
    case IsDefined(n, wanted) => Defined(n, w.macros) == wanted
    case Unanswerable => false
  }

  lemma OpenerAnswers(o: Opener, w: World, oracle: Oracle)
    ensures !OpenerQuestion(o).Unanswerable? ==> TestOpener(o, w, oracle) == Ok((Answer(OpenerQuestion(o), w), w))
    ensures OpenerQuestion(o).Unanswerable? && TestOpener(o, w, oracle).Ok? ==>
              |TestOpener(o, w, oracle).value.1.evaluated| > |w.evaluated| && TestOpener(o, w, oracle).value.1.out == w.out
  {
  }

  lemma AlternativeAnswers(a: Alternative, w: World, oracle: Oracle)
    ensures !AlternativeQuestion(a).Unanswerable? ==> TestAlternative(a, w, oracle) == Ok((Answer(AlternativeQuestion(a), w), w))
    ensures AlternativeQuestion(a).Unanswerable? && TestAlternative(a, w, oracle).Ok? ==>
              |TestAlternative(a, w, oracle).value.1.evaluated| > |w.evaluated| && TestAlternative(a, w, oracle).value.1.out == w.out
  {
  }

  // ---------------------------------------------------------------- quiet text leaves the world alone

  lemma {:induction false} QuietTextDoesNothing(items: Items, k: Known, start: World, now: World, oracle: Oracle)
    requires Quiet(items, k) && Describes(k, start, now)
    ensures RunItems(items, now, oracle) == Ok(start)
    decreases Size(items), 0
  {
    hide Describes, Act;
    match items
    case Nil => RestoredWorldIsTheStart(k, start, now);
    case Item(p, rest) =>
      ActIsDescribed(p, k, start, now);
      match p {
        case Define(n, body) => QuietTextDoesNothing(rest, k.(changes := k.changes[n := Some(body)]), start, Act(p, now), oracle);
        case Undef(n) => QuietTextDoesNothing(rest, k.(changes := k.changes[n := None]), start, Act(p, now), oracle);
        case Blank => QuietTextDoesNothing(rest, k, start, now, oracle);
        case NullDirective => QuietTextDoesNothing(rest, k, start, now, oracle);
        case PragmaOnce => QuietTextDoesNothing(rest, k, start, now, oracle);
        case Text(_) =>
        case Other(_) =>
      }
    case Section(o, body, branches, rest) =>
      SizeAppend(body, rest);
      RunAppend(body, rest, now, oracle);
      OpenerAnswers(o, now, oracle);
      var q := OpenerQuestion(o);
      var k' := if q.IsDefined? && Status(q.name, k).None? then Learn(q.name, Defined(q.name, now.macros), k) else k;
      if q.IsDefined? {
        StatusIsRight(q.name, k, start, now);
      }
      if Answer(q, now) {
        QuietTextDoesNothing(Append(body, rest), k', start, now, oracle);
      } else {
        QuietBranchesDoNothing(branches, rest, k', start, now, oracle);
      }
  }

  lemma {:induction false} QuietBranchesDoNothing(b: Branches, rest: Items, k: Known, start: World, now: World, oracle: Oracle)
    requires QuietBranches(b, rest, k) && Describes(k, start, now)
    ensures AndThen(RunBranches(b, now, oracle), rest, oracle) == Ok(start)
    decreases BranchesSize(b) + Size(rest), 1
  {
    hide Describes;
    match b
    case NoMore => QuietTextDoesNothing(rest, k, start, now, oracle);
    case Branch(a, body, more) =>
      SizeAppend(body, rest);
      RunAppend(body, rest, now, oracle);
      AlternativeAnswers(a, now, oracle);
      var q := AlternativeQuestion(a);
      var k' := if q.IsDefined? && Status(q.name, k).None? then Learn(q.name, Defined(q.name, now.macros), k) else k;
      if q.IsDefined? {
        StatusIsRight(q.name, k, start, now);
      }
      if Answer(q, now) {
        QuietTextDoesNothing(Append(body, rest), k', start, now, oracle);
      } else {
        QuietBranchesDoNothing(more, rest, k', start, now, oracle);
      }
  }

  // ---------------------------------------------------------------- other text does not

  /** What has been emitted and evaluated stays. */
  predicate Further(w: World, w': World) {
    |w.out| <= |w'.out| && |w.evaluated| <= |w'.evaluated|
  }

  lemma {:induction false} RunsOnlyAdd(items: Items, w: World, oracle: Oracle)
    ensures RunItems(items, w, oracle).Ok? ==> Further(w, RunItems(items, w, oracle).value)
    decreases items
  {
    match items
    case Nil =>
    case Item(p, rest) => RunsOnlyAdd(rest, Act(p, w), oracle);
    case Section(o, body, branches, rest) =>
      match TestOpener(o, w, oracle)
      case Err(_) =>
      case Ok((taken, w1)) =>
        if taken {
          RunsOnlyAdd(body, w1, oracle);
        } else {
          BranchesOnlyAdd(branches, w1, oracle);
        }
        match (if taken then RunItems(body, w1, oracle) else RunBranches(branches, w1, oracle))
        case Err(_) =>
        case Ok(w2) => RunsOnlyAdd(rest, w2, oracle);
  }

  lemma {:induction false} BranchesOnlyAdd(b: Branches, w: World, oracle: Oracle)
    ensures RunBranches(b, w, oracle).Ok? ==> Further(w, RunBranches(b, w, oracle).value)
    decreases b
  {
    match b
    case NoMore =>
    case Branch(a, body, more) =>
      match TestAlternative(a, w, oracle)
      case Err(_) =>
      case Ok((taken, w1)) =>
        if taken {
          RunsOnlyAdd(body, w1, oracle);
        } else {
          BranchesOnlyAdd(more, w1, oracle);
        }
  }

  /** Knowledge that some macro table agrees with. */
  predicate Consistent(k: Known) {
    k.defined !! k.undefined
  }

  /** A macro table that agrees with what is known and has one name as asked, if that is possible. */
  lemma TableFor(k: Known, n: Name, value: Option<string>) returns (start: Env)
    requires Consistent(k)
    requires value.Some? ==> n !in k.undefined
    requires value.None? ==> n !in k.defined
    ensures Agrees(k, start)
    ensures value.Some? ==> n in start && start[n] == value.value
    ensures value.None? ==> n !in start
  {
    var base := map m | m in k.defined :: "";
    start := if value.Some? then base[n := value.value] else base;
  }

  /** From every world that a macro table and the knowledge describe, the run does not come back to the start. */
  ghost predicate NeverRestored(items: Items, k: Known, start: World, oracle: Oracle) {
    forall now: World :: Describes(k, start, now) ==> RunItems(items, now, oracle) != Ok(start)
  }

  ghost predicate NeverRestoredByBranches(b: Branches, rest: Items, k: Known, start: World, oracle: Oracle) {
    forall now: World :: Describes(k, start, now) ==> AndThen(RunBranches(b, now, oracle), rest, oracle) != Ok(start)
  }

  function Fresh(start: Env): World {
    World(start, [], [])
  }

  /** Text that is not quiet changes the world for some macro table that agrees with what is known, whatever the
      evaluator. */
  lemma {:induction false} NoisyTextIsNoticed(items: Items, k: Known) returns (start: Env)
    requires !Quiet(items, k) && Consistent(k)
    ensures Agrees(k, start) && forall oracle: Oracle :: NeverRestored(items, k, Fresh(start), oracle)
    decreases Size(items), 0
  {
    hide Describes, Agrees, Act, RunItems;
    match items
    case Nil =>
      start := UnrestoredNameIsNoticed(k);
      forall oracle: Oracle ensures NeverRestored(items, k, Fresh(start), oracle) {
        forall now: World | Describes(k, Fresh(start), now) ensures RunItems(items, now, oracle) != Ok(Fresh(start)) {
          assert RunItems(items, now, oracle) == Ok(now) by { RunNil(now, oracle); }
        }
      }
    case Item(p, rest) =>
      if p.Text? || p.Other? {
        start := TableFor(k, "", if "" in k.defined then Some("") else None);
        forall oracle: Oracle ensures NeverRestored(items, k, Fresh(start), oracle) {
          TraceIsNoticed(p, rest, k, Fresh(start), oracle);
        }
      } else {
        var k' := if p.Define? then k.(changes := k.changes[p.name := Some(p.body)])
                  else if p.Undef? then k.(changes := k.changes[p.gone := None]) else k;
        start := NoisyTextIsNoticed(rest, k');
        assert Agrees(k, start) by { AgreesOnStart(k, k', start); }
        forall oracle: Oracle ensures NeverRestored(items, k, Fresh(start), oracle) {
          ItemPassesItOn(p, rest, k, k', Fresh(start), oracle);
        }
      }
    case Section(o, body, branches, rest) =>
      SizeAppend(body, rest);
      var q := OpenerQuestion(o);
      if q.Unanswerable? {
        start := TableFor(k, "", if "" in k.defined then Some("") else None);
        forall oracle: Oracle ensures NeverRestored(items, k, Fresh(start), oracle) {
          UnanswerableIsNoticed(o, body, branches, rest, k, Fresh(start), oracle);
        }
      } else {
        var taken, k' := NoisySide(q, Append(body, rest), branches, rest, k);
        if taken {
          start := NoisyTextIsNoticed(Append(body, rest), k');
        } else {
          start := NoisyBranchesAreNoticed(branches, rest, k');
        }
        assert Agrees(k, start) by { AgreesOnLearned(q, taken, k, k', start); }
        forall oracle: Oracle ensures NeverRestored(items, k, Fresh(start), oracle) {
          SectionPassesItOn(o, body, branches, rest, taken, k, k', Fresh(start), oracle);
        }
      }
  }

  lemma {:induction false} NoisyBranchesAreNoticed(b: Branches, rest: Items, k: Known) returns (start: Env)
    requires !QuietBranches(b, rest, k) && Consistent(k)
    ensures Agrees(k, start) && forall oracle: Oracle :: NeverRestoredByBranches(b, rest, k, Fresh(start), oracle)
    decreases BranchesSize(b) + Size(rest), 1
  {
    hide Describes, Agrees, Act, RunItems, RunBranches;
    match b
    case NoMore =>
      start := NoisyTextIsNoticed(rest, k);
      forall oracle: Oracle ensures NeverRestoredByBranches(b, rest, k, Fresh(start), oracle) {
        assert NeverRestored(rest, k, Fresh(start), oracle);
        forall now: World | Describes(k, Fresh(start), now)
          ensures AndThen(RunBranches(b, now, oracle), rest, oracle) != Ok(Fresh(start)) {
          assert RunBranches(b, now, oracle) == Ok(now) by { RunNoMore(now, oracle); }
        }
      }
    case Branch(a, body, more) =>
      SizeAppend(body, rest);
      var q := AlternativeQuestion(a);
      if q.Unanswerable? {
        start := TableFor(k, "", if "" in k.defined then Some("") else None);
        forall oracle: Oracle ensures NeverRestoredByBranches(b, rest, k, Fresh(start), oracle) {
          UnanswerableBranchIsNoticed(a, body, more, rest, k, Fresh(start), oracle);
        }
      } else {
        var taken, k' := NoisySide(q, Append(body, rest), more, rest, k);
        if taken {
          start := NoisyTextIsNoticed(Append(body, rest), k');
        } else {
          start := NoisyBranchesAreNoticed(more, rest, k');
        }
        assert Agrees(k, start) by { AgreesOnLearned(q, taken, k, k', start); }
        forall oracle: Oracle ensures NeverRestoredByBranches(b, rest, k, Fresh(start), oracle) {
          BranchPassesItOn(a, body, more, rest, taken, k, k', Fresh(start), oracle);
        }
      }
  }

  lemma RunNil(w: World, oracle: Oracle)
    ensures RunItems(Nil, w, oracle) == Ok(w)
  {
  }

  lemma RunNoMore(w: World, oracle: Oracle)
    ensures RunBranches(NoMore, w, oracle) == Ok(w)
  {
  }

  lemma AgreesOnStart(k: Known, k': Known, start: Env)
    requires Agrees(k', start) && k'.defined == k.defined && k'.undefined == k.undefined
    ensures Agrees(k, start)
  {
  }

  /** The knowledge on one side of a test. */
  predicate Side(q: Question, taken: bool, k: Known, k': Known) {
    match q
    case Unanswerable => false
    case Always => taken && k' == k
    case IsDefined(n, wanted) =>
      match Status(n, k)
      case Some(b) => taken == (b == wanted) && k' == k
      case None => k' == Learn(n, taken == wanted, k)
  }

  lemma AgreesOnLearned(q: Question, taken: bool, k: Known, k': Known, start: Env)
    requires Side(q, taken, k, k') && Agrees(k', start)
    ensures Agrees(k, start)
  {
  }

  /** If a section is not quiet, one of the sides of its test that can come about is not. */
  lemma NoisySide(q: Question, body: Items, more: Branches, rest: Items, k: Known) returns (taken: bool, k': Known)
    requires !q.Unanswerable? && Consistent(k)
    requires !(match q
               case Unanswerable => false
               case Always => Quiet(body, k)
               case IsDefined(n, wanted) =>
                 match Status(n, k)
                 case Some(b) => if b == wanted then Quiet(body, k) else QuietBranches(more, rest, k)
                 case None => Quiet(body, Learn(n, wanted, k)) && QuietBranches(more, rest, Learn(n, !wanted, k)))
    ensures Side(q, taken, k, k') && Consistent(k')
    ensures taken ==> !Quiet(body, k')
    ensures !taken ==> !QuietBranches(more, rest, k')
  {
    hide Quiet, QuietBranches;
    taken, k' := true, k;
    if q.IsDefined? {
      match Status(q.name, k)
      case Some(b) => taken := b == q.wanted;
      case None =>
        taken := !Quiet(body, Learn(q.name, q.wanted, k));
        k' := Learn(q.name, taken == q.wanted, k);
    }
  }

  /** In a described world that agrees with one side's knowledge, the test comes out on that side, and the knowledge of
      that side describes it. */
  lemma SideComesAbout(q: Question, taken: bool, k: Known, k': Known, start: World, now: World)
    requires Side(q, taken, k, k') && Describes(k, start, now) && Agrees(k', start.macros)
    ensures Answer(q, now) == taken && Describes(k', start, now)
  {
    if q.IsDefined? {
      StatusIsRight(q.name, k, start, now);
    }
  }

  lemma UnrestoredNameIsNoticed(k: Known) returns (start: Env)
    requires !Restored(k) && Consistent(k)
    ensures Agrees(k, start) && forall now: World :: Describes(k, Fresh(start), now) ==> now != Fresh(start)
  {
    var n :| n in k.changes && !(n in k.undefined && k.changes[n].None?);
    match k.changes[n] {
      case None => start := TableFor(k, n, Some(""));
      case Some(v) =>
        start := TableFor(k, n, if n in k.defined then Some(v + "x") else None);
        assert |v + "x"| != |v|;
    }
  }

  lemma TraceIsNoticed(p: Plain, rest: Items, k: Known, start: World, oracle: Oracle)
    requires p.Text? || p.Other?
    ensures NeverRestored(Item(p, rest), k, start, oracle)
  {
    forall now: World | Describes(k, start, now) ensures RunItems(Item(p, rest), now, oracle) != Ok(start) {
      RunsOnlyAdd(rest, Act(p, now), oracle);
    }
  }

  lemma ItemPassesItOn(p: Plain, rest: Items, k: Known, k': Known, start: World, oracle: Oracle)
    requires !p.Text? && !p.Other?
    requires k' == if p.Define? then k.(changes := k.changes[p.name := Some(p.body)])
                   else if p.Undef? then k.(changes := k.changes[p.gone := None]) else k
    requires NeverRestored(rest, k', start, oracle)
    ensures NeverRestored(Item(p, rest), k, start, oracle)
  {
    hide Describes;
    forall now: World | Describes(k, start, now) ensures RunItems(Item(p, rest), now, oracle) != Ok(start) {
      ActIsDescribed(p, k, start, now);
      assert Describes(k', start, Act(p, now));
    }
  }

  lemma UnanswerableIsNoticed(o: Opener, body: Items, branches: Branches, rest: Items, k: Known, start: World, oracle: Oracle)
    requires OpenerQuestion(o).Unanswerable?
    ensures NeverRestored(Section(o, body, branches, rest), k, start, oracle)
  {
    var items := Section(o, body, branches, rest);
    forall now: World | Describes(k, start, now) ensures RunItems(items, now, oracle) != Ok(start) {
      OpenerAnswers(o, now, oracle);
      match TestOpener(o, now, oracle)
      case Err(_) =>
      case Ok((taken, w1)) =>
        RunsOnlyAdd(body, w1, oracle);
        BranchesOnlyAdd(branches, w1, oracle);
        match (if taken then RunItems(body, w1, oracle) else RunBranches(branches, w1, oracle))
        case Err(_) =>
        case Ok(w2) => RunsOnlyAdd(rest, w2, oracle);
    }
  }

  lemma UnanswerableBranchIsNoticed(a: Alternative, body: Items, more: Branches, rest: Items, k: Known, start: World, oracle: Oracle)
    requires AlternativeQuestion(a).Unanswerable?
    ensures NeverRestoredByBranches(Branch(a, body, more), rest, k, start, oracle)
  {
    var b := Branch(a, body, more);
    forall now: World | Describes(k, start, now) ensures AndThen(RunBranches(b, now, oracle), rest, oracle) != Ok(start) {
      AlternativeAnswers(a, now, oracle);
      match TestAlternative(a, now, oracle)
      case Err(_) =>
      case Ok((taken, w1)) =>
        RunsOnlyAdd(body, w1, oracle);
        BranchesOnlyAdd(more, w1, oracle);
        match (if taken then RunItems(body, w1, oracle) else RunBranches(more, w1, oracle))
        case Err(_) =>
        case Ok(w2) => RunsOnlyAdd(rest, w2, oracle);
    }
  }

  lemma SectionPassesItOn(o: Opener, body: Items, branches: Branches, rest: Items, taken: bool, k: Known, k': Known,
                          start: World, oracle: Oracle)
    requires Side(OpenerQuestion(o), taken, k, k') && Agrees(k', start.macros)
    requires if taken then NeverRestored(Append(body, rest), k', start, oracle)
             else NeverRestoredByBranches(branches, rest, k', start, oracle)
    ensures NeverRestored(Section(o, body, branches, rest), k, start, oracle)
  {
    hide Describes, Agrees, Side;
    var items := Section(o, body, branches, rest);
    assert !OpenerQuestion(o).Unanswerable? by { SidesAreAnswers(OpenerQuestion(o), taken, k, k'); }
    forall now: World | Describes(k, start, now) ensures RunItems(items, now, oracle) != Ok(start) {
      SideComesAbout(OpenerQuestion(o), taken, k, k', start, now);
      OpenerAnswers(o, now, oracle);
      RunAppend(body, rest, now, oracle);
    }
  }

  lemma BranchPassesItOn(a: Alternative, body: Items, more: Branches, rest: Items, taken: bool, k: Known, k': Known,
                         start: World, oracle: Oracle)
    requires Side(AlternativeQuestion(a), taken, k, k') && Agrees(k', start.macros)
    requires if taken then NeverRestored(Append(body, rest), k', start, oracle)
             else NeverRestoredByBranches(more, rest, k', start, oracle)
    ensures NeverRestoredByBranches(Branch(a, body, more), rest, k, start, oracle)
  {
    hide Describes, Agrees, Side;
    var b := Branch(a, body, more);
    assert !AlternativeQuestion(a).Unanswerable? by { SidesAreAnswers(AlternativeQuestion(a), taken, k, k'); }
    forall now: World | Describes(k, start, now) ensures AndThen(RunBranches(b, now, oracle), rest, oracle) != Ok(start) {
      SideComesAbout(AlternativeQuestion(a), taken, k, k', start, now);
      AlternativeAnswers(a, now, oracle);
      RunAppend(body, rest, now, oracle);
    }
  }

  lemma SidesAreAnswers(q: Question, taken: bool, k: Known, k': Known)
    requires Side(q, taken, k, k')
    ensures !q.Unanswerable?
  {
  }

  // ---------------------------------------------------------------- guarded files

  lemma {:induction false} InsideIsNested(lines: seq<Line>, d: nat)
    requires d >= 1 && StaysInside(lines, d)
    ensures Nested(lines + [Endif], d)
    decreases |lines|
  {
    if lines == [] {
      assert lines + [Endif] == [Endif] && [Endif][1..] == [];
    } else {
      assert (lines + [Endif])[1..] == lines[1..] + [Endif];
      var d' := if lines[0].Open? then d + 1 else if lines[0].Endif? then d - 1 else d;
      InsideIsNested(lines[1..], d');
    }
  }

  lemma {:induction false} TreeStaysInside(items: Items, tail: seq<Line>, d: nat)
    requires d >= 1
    ensures StaysInside(Flatten(items) + tail, d) <==> StaysInside(tail, d)
    decreases items
  {
    match items
    case Nil => assert Flatten(items) + tail == tail;
    case Item(p, rest) =>
      assert (Flatten(items) + tail)[1..] == Flatten(rest) + tail;
      TreeStaysInside(rest, tail, d);
    case Section(o, body, branches, rest) =>
      SectionText(o, body, branches, rest, tail);
      var close := [Endif] + (Flatten(rest) + tail);
      assert (Flatten(items) + tail)[1..] == Flatten(body) + (FlattenBranches(branches) + close);
      TreeStaysInside(body, FlattenBranches(branches) + close, d + 1);
      BranchesStayInside(branches, close, d + 1);
      assert close[1..] == Flatten(rest) + tail;
      TreeStaysInside(rest, tail, d);
  }

  lemma {:induction false} BranchesStayInside(b: Branches, tail: seq<Line>, d: nat)
    requires d >= 1
    ensures StaysInside(FlattenBranches(b) + tail, d) <==> StaysInside(tail, d)
    decreases b
  {
    match b
    case NoMore => assert FlattenBranches(b) + tail == tail;
    case Branch(a, body, more) =>
      BranchText(a, body, more, tail);
      assert (FlattenBranches(b) + tail)[1..] == Flatten(body) + (FlattenBranches(more) + tail);
      TreeStaysInside(body, FlattenBranches(more) + tail, d);
      BranchesStayInside(more, tail, d);
  }

  /** The interior of a guard section is a body and branches. */
  lemma InteriorHasBranches(interior: seq<Line>) returns (body: Items, branches: Branches)
    requires StaysInside(interior, 1)
    ensures interior == Flatten(body) + FlattenBranches(branches)
  {
    InsideIsNested(interior, 1);
    var tail, rest;
    body, tail := SplitItems(interior + [Endif], 1);
    assert tail != [];
    branches, rest := SplitBranches(tail, 1);
    var inside := Flatten(body) + FlattenBranches(branches);
    assert interior + [Endif] == inside + ([Endif] + rest);
    if rest != [] {
      var more := rest[..|rest| - 1];
      assert interior == (interior + [Endif])[..|interior|] == inside + ([Endif] + more);
      assert interior == Flatten(body) + (FlattenBranches(branches) + ([Endif] + more));
      TreeStaysInside(body, FlattenBranches(branches) + ([Endif] + more), 1);
      BranchesStayInside(branches, [Endif] + more, 1);
      assert false;
    }
    assert interior == (interior + [Endif])[..|interior|] == inside;
  }

  lemma GuardSectionRuns(opener: Opener, guard: Name, body: Items, branches: Branches, w: World, oracle: Oracle)
    requires GuardName(opener) == Some(guard) && guard in w.macros
    ensures RunItems(Section(opener, body, branches, Nil), w, oracle) == RunBranches(branches, w, oracle)
  {
    hide RunBranches;
    assert TestOpener(opener, w, oracle) == Ok((false, w));
  }

  lemma WholeIsSection(p: Parts, body: Items, branches: Branches)
    requires p.interior == Flatten(body) + FlattenBranches(branches)
    ensures Whole(p) == p.prefix + (Flatten(Section(p.opener, body, branches, Nil)) + p.suffix)
  {
    SectionText(p.opener, body, branches, Nil, p.suffix);
    assert Flatten(Nil) + p.suffix == p.suffix;
    hide Flatten, FlattenBranches;
    Reassociate(Flatten(body), FlattenBranches(branches), [Endif] + p.suffix);
  }

  lemma Reassociate(a: seq<Line>, b: seq<Line>, c: seq<Line>)
    ensures (a + b) + c == a + (b + c)
  {
  }

  /** Running a guarded file with its guard defined is running the branches of its guard section. */
  lemma GuardedFileRunsItsBranches(p: Parts, guard: Name, body: Items, branches: Branches,
                                   below: seq<Frame>, w: World, oracle: Oracle)
    requires GuardShape(p, guard) && p.interior == Flatten(body) + FlattenBranches(branches)
    requires TopActive(below) && guard in w.macros
    ensures RunLines(Whole(p), State(below, false, w), oracle)
         == match RunBranches(branches, w, oracle) case Err(e) => Err(e) case Ok(w') => Ok(State(below, false, w'))
  {
    hide RunBranches, RunItems, RunLines, Flatten, FlattenBranches, Whole, AllInert;
    var section := Section(p.opener, body, branches, Nil);
    var s := State(below, false, w);
    WholeIsSection(p, body, branches);
    RunConcat(p.prefix, Flatten(section) + p.suffix, s, oracle);
    InertLinesDoNothing(p.prefix, s, oracle);
    ActiveItems(section, below, p.suffix, w, oracle);
    GuardSectionRuns(p.opener, guard, body, branches, w, oracle);
    match RunBranches(branches, w, oracle)
    case Err(_) =>
    case Ok(w') => InertLinesDoNothing(p.suffix, State(below, false, w'), oracle);
  }

  /** Not reading the file again is what reading it would have done, wherever it is included while its guard is
      defined. */
  ghost predicate SkipIsRight(p: Parts, guard: Name) {
    forall below: seq<Frame>, w: World, oracle: Oracle :: TopActive(below) && guard in w.macros ==>
      RunLines(Whole(p), State(below, false, w), oracle) == Ok(State(below, false, w))
  }

  /** All that is known when the guard's branches are run. */
  function GuardDefined(guard: Name): Known {
    Known({guard}, {}, map[])
  }

  /** Skipping a file of the guard shape is right if and only if the branches of its guard section are quiet. */
  lemma SkipIsRightExactly(p: Parts, guard: Name, body: Items, branches: Branches)
    requires GuardShape(p, guard) && p.interior == Flatten(body) + FlattenBranches(branches)
    ensures SkipIsRight(p, guard) <==> QuietBranches(branches, Nil, GuardDefined(guard))
  {
    hide QuietBranches, RunBranches, GuardShape, Whole;
    var k := GuardDefined(guard);
    if QuietBranches(branches, Nil, k) {
      forall below: seq<Frame>, w: World, oracle: Oracle | TopActive(below) && guard in w.macros
        ensures RunLines(Whole(p), State(below, false, w), oracle) == Ok(State(below, false, w)) {
        GuardedFileRunsItsBranches(p, guard, body, branches, below, w, oracle);
        QuietBranchesDoNothing(branches, Nil, k, w, w, oracle);
        BranchesThenNothing(branches, w, oracle);
      }
    } else {
      var start := NoisyBranchesAreNoticed(branches, Nil, k);
      var w := Fresh(start);
      var oracle: Oracle := (t: string, e: Env) => None;
      assert Describes(k, w, w);
      assert NeverRestoredByBranches(branches, Nil, k, w, oracle);
      BranchesThenNothing(branches, w, oracle);
      var none: seq<Frame> := [];
      GuardedFileRunsItsBranches(p, guard, body, branches, none, w, oracle);
      assert RunLines(Whole(p), State(none, false, w), oracle) != Ok(State(none, false, w));
    }
  }

  lemma BranchesThenNothing(b: Branches, w: World, oracle: Oracle)
    ensures AndThen(RunBranches(b, w, oracle), Nil, oracle) == RunBranches(b, w, oracle)
  {
  }

  /** For every file the scanner accepts: the branches of its guard section decide whether skipping it is right. */
  lemma AcceptedFileSkipIsRightExactly(file: seq<FileLine>) returns (p: Parts, body: Items, branches: Branches)
    requires Guard(file).Some?
    ensures Malformed !in file && Lines(file) == Whole(p) && GuardShape(p, Guard(file).value)
    ensures p.interior == Flatten(body) + FlattenBranches(branches)
    ensures SkipIsRight(p, Guard(file).value) <==> QuietBranches(branches, Nil, GuardDefined(Guard(file).value))
  {
    hide QuietBranches, SkipIsRight;
    p := AcceptedFilesHaveGuardShape(file);
    body, branches := InteriorHasBranches(p.interior);
    SkipIsRightExactly(p, Guard(file).value, body, branches);
  }

  /** A live alternative alone does not make the skip wrong: an empty #else is passed through without a trace. */
  lemma EmptyElseIsQuiet()
    ensures QuietBranches(Branch(Else, Nil, NoMore), Nil, GuardDefined("G"))
  {
    assert Append(Nil, Nil) == Nil;
    assert Quiet(Nil, GuardDefined("G"));
  }

  lemma UndefineIsNoisy()
    ensures !QuietBranches(Branch(Else, Item(Undef("X"), Nil), NoMore), Nil, GuardDefined("G"))
  {
    var k := GuardDefined("G");
    var k' := k.(changes := k.changes["X" := None]);
    assert "X" in k'.changes && !Quiet(Nil, k');
    assert Append(Item(Undef("X"), Nil), Nil) == Item(Undef("X"), Nil);
    assert !Quiet(Item(Undef("X"), Nil), k);
  }

  function EmptyElseFile(): seq<FileLine> {
    [Plainly(Open(Ifdef(Some("G"), true))), Plainly(P(Define("G", ""))), Plainly(Alt(Else)), Plainly(Endif)]
  }

  function EmptyElseParts(): Parts {
    Parts([], Ifdef(Some("G"), true), [P(Define("G", "")), Alt(Else)], [])
  }

  lemma EmptyElseFileIsAccepted()
    ensures Guard(EmptyElseFile()) == Some("G")
  {
    var l0, l1, l2, l3 := EmptyElseFile()[0], EmptyElseFile()[1], EmptyElseFile()[2], EmptyElseFile()[3];
    assert EmptyElseFile()[1..] == [l1, l2, l3] && [l1, l2, l3][1..] == [l2, l3] && [l2, l3][1..] == [l3] && [l3][1..] == [];
    assert ScanFrom(AfterGuard("G"), []) == Some(AfterGuard("G"));
    assert ScanFrom(InGuard("G", 1), [l3]) == Some(AfterGuard("G"));
    assert ScanFrom(InGuard("G", 1), [l2, l3]) == Some(AfterGuard("G"));
    assert ScanFrom(ExpectDefine("G"), [l1, l2, l3]) == Some(AfterGuard("G"));
  }

  lemma LiveHead(lines: seq<Line>, guard: Name)
    requires lines != [] && lines[0].Alt? && Live(lines[0].alternative, guard)
    ensures !NoLiveAlternative(lines, 1, guard)
  {
  }

  lemma EmptyElseInterior()
    ensures var p := EmptyElseParts();
            GuardShape(p, "G") && !NoLiveAlternative(p.interior, 1, "G")
            && p.interior == Flatten(Item(Define("G", ""), Nil)) + FlattenBranches(Branch(Else, Nil, NoMore))
  {
    var l1, l2 := P(Define("G", "")), Alt(Else);
    assert EmptyElseParts().interior[1..] == [l2] && [l2][1..] == [];
    LiveHead([l2], "G");
    assert StaysInside([l2], 1);
    assert EmptyElseParts().interior[0] == l1;
    assert Flatten(Item(Define("G", ""), Nil)) == [l1] && FlattenBranches(Branch(Else, Nil, NoMore)) == [l2];
  }

  /** The file #ifndef G / #define G / #else / #endif is accepted and has a live alternative, yet skipping it is
      right. */
  lemma EmptyElseFileIsSkippable()
    ensures var file, p := EmptyElseFile(), EmptyElseParts();
            Guard(file) == Some("G") && Malformed !in file && Lines(file) == Whole(p)
            && !NoLiveAlternative(p.interior, 1, "G") && SkipIsRight(p, "G")
  {
    hide QuietBranches, SkipIsRight, Guard, StaysInside, NoLiveAlternative, Flatten, FlattenBranches;
    EmptyElseFileIsAccepted();
    EmptyElseInterior();
    EmptyElseIsQuiet();
    SkipIsRightExactly(EmptyElseParts(), "G", Item(Define("G", ""), Nil), Branch(Else, Nil, NoMore));
  }

  function UndefineFile(): seq<FileLine> {
    [Plainly(Open(Ifdef(Some("G"), true))), Plainly(P(Define("G", ""))), Plainly(Alt(Else)), Plainly(P(Undef("X"))), Plainly(Endif)]
  }

  function UndefineParts(): Parts {
    Parts([], Ifdef(Some("G"), true), [P(Define("G", "")), Alt(Else), P(Undef("X"))], [])
  }

  lemma UndefineFileIsAccepted()
    ensures Guard(UndefineFile()) == Some("G")
  {
    var f := UndefineFile();
    var l1, l2, l3, l4 := f[1], f[2], f[3], f[4];
    assert f[1..] == [l1, l2, l3, l4] && [l1, l2, l3, l4][1..] == [l2, l3, l4];
    assert [l2, l3, l4][1..] == [l3, l4] && [l3, l4][1..] == [l4] && [l4][1..] == [];
    assert ScanFrom(AfterGuard("G"), []) == Some(AfterGuard("G"));
    assert ScanFrom(InGuard("G", 1), [l4]) == Some(AfterGuard("G"));
    assert ScanFrom(InGuard("G", 1), [l3, l4]) == Some(AfterGuard("G"));
    assert ScanFrom(InGuard("G", 1), [l2, l3, l4]) == Some(AfterGuard("G"));
    assert ScanFrom(ExpectDefine("G"), [l1, l2, l3, l4]) == Some(AfterGuard("G"));
  }

  lemma UndefineInterior()
    ensures var p := UndefineParts();
            GuardShape(p, "G")
            && p.interior == Flatten(Item(Define("G", ""), Nil)) + FlattenBranches(Branch(Else, Item(Undef("X"), Nil), NoMore))
  {
    var l1, l2, l3 := P(Define("G", "")), Alt(Else), P(Undef("X"));
    assert UndefineParts().interior[1..] == [l2, l3] && [l2, l3][1..] == [l3] && [l3][1..] == [];
    assert StaysInside([l3], 1) && StaysInside([l2, l3], 1);
    assert Flatten(Item(Undef("X"), Nil)) == [l3];
    assert Flatten(Item(Define("G", ""), Nil)) == [l1] && FlattenBranches(Branch(Else, Item(Undef("X"), Nil), NoMore)) == [l2, l3];
  }

  /** The file #ifndef G / #define G / #else / #undef X / #endif is accepted, and skipping it is wrong although it emits
      nothing. */
  lemma UndefineFileIsNotSkippable()
    ensures var file, p := UndefineFile(), UndefineParts();
            Guard(file) == Some("G") && Malformed !in file && Lines(file) == Whole(p) && !SkipIsRight(p, "G")
  {
    hide QuietBranches, SkipIsRight, Guard, StaysInside, Flatten, FlattenBranches;
    UndefineFileIsAccepted();
    UndefineInterior();
    UndefineIsNoisy();
    SkipIsRightExactly(UndefineParts(), "G", Item(Define("G", ""), Nil), Branch(Else, Item(Undef("X"), Nil), NoMore));
  }
}
