/** Translation phase 2 (C17 section 5.1.1.2): line splicing in place, with a map from logical to
    physical positions, and raw strings read from the physical text through that map. */
module Phase2 {
  import opened Search

  // ---------------------------------------------------------------- the meaning, in two phases

  /** Spaces that may stand between the backslash and the line end of a GNU splice. */
  predicate IsSpliceSpace(c: char) {
    c == ' ' || c == '\t' || c == '\U{000C}' || c == '\U{000B}'
  }

  /** Line ends folded: CR LF and a lone CR become LF. */
  function Fold(s: string): string {
    if s == "" then ""
    else if s[0] == '\r' then
      ['\n'] + (if |s| > 1 && s[1] == '\n' then Fold(s[2..]) else Fold(s[1..]))
    else [s[0]] + Fold(s[1..])
  }

  /** How many splice spaces a text starts with. */
  function Spaces(s: string): (n: nat)
    ensures n <= |s|
  {
    if s != "" && IsSpliceSpace(s[0]) then 1 + Spaces(s[1..]) else 0
  }

  /** A folded text starts with a splice: backslash, spaces, line feed. */
  predicate StartsWithSplice(s: string) {
    s != "" && s[0] == '\\' && Spaces(s[1..]) + 1 < |s| && s[Spaces(s[1..]) + 1] == '\n'
  }

  /** All splices of a folded text removed, from left to right. */
  function Splice(s: string): string {
    if s == "" then ""
    else if StartsWithSplice(s) then Splice(s[Spaces(s[1..]) + 2..])
    else [s[0]] + Splice(s[1..])
  }

  /** Folding by the first characters: CR LF and any other CR become one LF, and everything else stays. */
  lemma FoldingFromTheFront(c: char, s: string)
    ensures Fold("") == "" && Fold("\r\n" + s) == "\n" + Fold(s)
    ensures s == "" || s[0] != '\n' ==> Fold("\r" + s) == "\n" + Fold(s)
    ensures c != '\r' ==> Fold([c] + s) == [c] + Fold(s)
  {
    assert ("\r\n" + s)[2..] == s && ("\r" + s)[1..] == s && ([c] + s)[1..] == s;
  }

  /** Splicing by the first characters: a backslash goes with the spaces and the line feed behind it, and stays if
      something else stands behind the spaces; every other character stays. */
  lemma SplicingFromTheFront(spaces: string, c: char, s: string)
    requires forall i :: 0 <= i < |spaces| ==> spaces[i] in {' ', '\t', 12 as char, 11 as char}
    ensures Splice("") == "" && Splice("\\" + (spaces + ("\n" + s))) == Splice(s)
    ensures c !in {' ', '\t', 12 as char, 11 as char, '\n'} ==>
              Splice("\\" + (spaces + ([c] + s))) == "\\" + Splice(spaces + ([c] + s))
    ensures Splice("\\" + spaces) == "\\" + Splice(spaces)
    ensures c != '\\' ==> Splice([c] + s) == [c] + Splice(s)
  {
    var feed, other, none := spaces + ("\n" + s), spaces + ([c] + s), spaces + "";
    SpacesInFront(spaces, "\n" + s);
    if c !in {' ', '\t', 12 as char, 11 as char, '\n'} {
      SpacesInFront(spaces, [c] + s);
    }
    SpacesInFront(spaces, "");
    assert ("\\" + feed)[1..] == feed && ("\\" + feed)[|spaces| + 2..] == s;
    assert ("\\" + other)[1..] == other && ("\\" + spaces)[1..] == spaces == none;
    assert ([c] + s)[1..] == s;
  }

  lemma {:induction false} SpacesInFront(spaces: string, s: string)
    requires forall i :: 0 <= i < |spaces| ==> spaces[i] in {' ', '\t', 12 as char, 11 as char}
    requires s == "" || s[0] !in {' ', '\t', 12 as char, 11 as char}
    ensures Spaces(spaces + s) == |spaces|
  {
    if spaces == "" {
      assert spaces + s == s;
    } else {
      assert (spaces + s)[1..] == spaces[1..] + s;
      SpacesInFront(spaces[1..], s);
    }
  }

  // ---------------------------------------------------------------- the meaning, with origins

  /** A logical character and the physical byte it came from. */
  datatype Unit = Unit(ch: char, origin: nat)

  /** The first position from i on that is not a splice space. */
  function SkipSpaces(text: string, i: nat): (k: nat)
    requires i <= |text|
    ensures i <= k <= |text|
    decreases |text| - i
  {
    if i < |text| && IsSpliceSpace(text[i]) then SkipSpaces(text, i + 1) else i
  }

  /** One past the line end that a backslash at i splices away; i itself if there is none. */
  function SpliceEnd(text: string, i: nat): (e: nat)
    requires i < |text|
    ensures i <= e <= |text|
  {
    var k := SkipSpaces(text, i + 1);
    if text[i] != '\\' || k == |text| then i
    else if text[k] == '\n' then k + 1
    else if text[k] == '\r' then (if k + 1 < |text| && text[k + 1] == '\n' then k + 2 else k + 1)
    else i
  }

  function Units(text: string, i: nat): seq<Unit>
    requires i <= |text|
    decreases |text| - i
  {
    if i == |text| then []
    else if text[i] == '\r' then
      if i + 1 < |text| && text[i + 1] == '\n' then [Unit('\n', i + 1)] + Units(text, i + 2)
      else [Unit('\n', i)] + Units(text, i + 1)
    else if SpliceEnd(text, i) > i then Units(text, SpliceEnd(text, i))
    else [Unit(text[i], i)] + Units(text, i + 1)
  }

  function Chars(us: seq<Unit>): string {
    seq(|us|, i requires 0 <= i < |us| => us[i].ch)
  }

  lemma CharsCons(u: Unit, us: seq<Unit>)
    ensures Chars([u] + us) == [u.ch] + Chars(us)
  {
  }

  lemma {:induction false} SpacesFold(text: string, i: nat)
    requires i <= |text|
    ensures var k := SkipSpaces(text, i);
            Spaces(Fold(text[i..])) == k - i && Fold(text[i..])[k - i..] == Fold(text[k..])
            && |Fold(text[i..])| == (k - i) + |Fold(text[k..])|
    decreases |text| - i
  {
    hide Fold, Spaces, SkipSpaces;
    SkipOne(text, i);
    if i == |text| {
      FoldEmpty(text, i);
      assert text[i..] == text[i..i];
      SpacesInside("", "");
    } else {
      FoldFrom(text, i);
      if IsSpliceSpace(text[i]) {
        SpacesFold(text, i + 1);
        var k := SkipSpaces(text, i + 1);
        OneMoreSpace(text[i], Fold(text[i + 1..]), k - i - 1, Fold(text[k..]));
      } else {
        SpacesInside(Fold(text[i..]), Fold(text[i..]));
      }
    }
  }

  lemma SkipOne(text: string, i: nat)
    requires i <= |text|
    ensures SkipSpaces(text, i) == if i < |text| && IsSpliceSpace(text[i]) then SkipSpaces(text, i + 1) else i
  {
  }

  lemma SpacesInside(s: string, t: string)
    requires s == t && (s == "" || !IsSpliceSpace(s[0]))
    ensures Spaces(s) == 0 && s[0..] == t
  {
  }

  lemma OneMoreSpace(c: char, s: string, n: nat, rest: string)
    requires IsSpliceSpace(c) && Spaces(s) == n <= |s| && s[n..] == rest
    ensures Spaces([c] + s) == n + 1 && ([c] + s)[n + 1..] == rest && |[c] + s| == n + 1 + |rest|
  {
    assert ([c] + s)[1..] == s;
  }

  lemma FoldFrom(text: string, i: nat)
    requires i < |text|
    ensures Fold(text[i..]) ==
            if text[i] == '\r' then
              ['\n'] + (if i + 1 < |text| && text[i + 1] == '\n' then Fold(text[i + 2..]) else Fold(text[i + 1..]))
            else [text[i]] + Fold(text[i + 1..])
  {
    var s := text[i..];
    assert s[0] == text[i] && s[1..] == text[i + 1..];
    assert |s| > 1 ==> s[1] == text[i + 1] && s[2..] == text[i + 2..];
  }

  lemma SliceTail(s: string, k: nat, c: char, rest: string)
    requires k <= |s| && s[k..] == [c] + rest
    ensures k < |s| && s[k] == c && s[k + 1..] == rest
  {
    assert |s[k..]| == |s| - k;
    assert s[k..][0] == c && s[k..][1..] == rest;
  }

  /** A character, spaces and a rest start with a splice if the character is a backslash and the rest a line feed. */
  lemma SpliceParts(c: char, h: string, n: nat, rest: string)
    requires Spaces(h) == n && n <= |h| && h[n..] == rest
    ensures var f := [c] + h;
            f[1..] == h && (StartsWithSplice(f) <==> c == '\\' && rest != "" && rest[0] == '\n')
            && (rest != "" ==> n + 2 <= |f| && f[n + 2..] == rest[1..])
  {
    hide Spaces;
    var f := [c] + h;
    assert f[1..] == h && f[n + 1..] == rest;
    if rest != "" {
      SliceTail(f, n + 1, rest[0], rest[1..]);
    }
  }

  /** What the folded text goes on with at k, and where the splice ends if a backslash and spaces stand in front. */
  lemma FoldedRest(text: string, i: nat, k: nat)
    requires i < |text| && text[i] != '\r' && k == SkipSpaces(text, i + 1)
    ensures var rest := Fold(text[k..]);
            (SpliceEnd(text, i) > i <==> text[i] == '\\' && rest != "" && rest[0] == '\n')
            && (SpliceEnd(text, i) > i ==> rest[1..] == Fold(text[SpliceEnd(text, i)..]))
  {
    hide Fold, SkipSpaces;
    if k < |text| {
      FoldFrom(text, k);
    } else {
      FoldEmpty(text, k);
      assert text[k..] == text[k..k];
    }
  }

  /** A splice in the physical text is a splice of the folded text, and nothing else is. */
  lemma SpliceFold(text: string, i: nat)
    requires i < |text| && text[i] != '\r'
    ensures Fold(text[i..]) == [text[i]] + Fold(text[i + 1..])
    ensures StartsWithSplice(Fold(text[i..])) <==> SpliceEnd(text, i) > i
    ensures SpliceEnd(text, i) > i ==>
              Fold(text[i..])[Spaces(Fold(text[i..])[1..]) + 2..] == Fold(text[SpliceEnd(text, i)..])
  {
    hide Fold, Spaces, SkipSpaces, SpliceEnd, StartsWithSplice;
    FoldFrom(text, i);
    SpacesFold(text, i + 1);
    var k := SkipSpaces(text, i + 1);
    SpliceParts(text[i], Fold(text[i + 1..]), k - i - 1, Fold(text[k..]));
    FoldedRest(text, i, k);
  }

  /** The one-pass scan means the two phases: fold line ends, then remove splices. */
  lemma {:induction false} OnePassIsTwoPhases(text: string, i: nat)
    requires i <= |text|
    ensures Chars(Units(text, i)) == Splice(Fold(text[i..]))
    decreases |text| - i
  {
    if i < |text| {
      var s := text[i..];
      assert s[1..] == text[i + 1..];
      if text[i] == '\r' {
        var next := if i + 1 < |text| && text[i + 1] == '\n' then i + 2 else i + 1;
        assert |s| > 1 ==> s[1] == text[i + 1] && s[2..] == text[i + 2..];
        OnePassIsTwoPhases(text, next);
        assert Fold(s) == ['\n'] + Fold(text[next..]);
        assert Fold(s)[1..] == Fold(text[next..]);
        CharsCons(Units(text, i)[0], Units(text, next));
      } else {
        SpliceFold(text, i);
        if SpliceEnd(text, i) > i {
          OnePassIsTwoPhases(text, SpliceEnd(text, i));
        } else {
          OnePassIsTwoPhases(text, i + 1);
          assert Fold(s)[1..] == Fold(text[i + 1..]);
          CharsCons(Unit(text[i], i), Units(text, i + 1));
        }
      }
    }
  }

  /** Every logical character is its physical byte, or a line feed standing for a CR that no LF follows. */
  lemma {:induction false} OriginsAreFaithful(text: string, i: nat, n: nat)
    requires i <= |text| && n < |Units(text, i)|
    ensures i <= Units(text, i)[n].origin < |text|
    ensures var u := Units(text, i)[n];
            text[u.origin] == u.ch
            || (u.ch == '\n' && text[u.origin] == '\r' && (u.origin + 1 < |text| ==> text[u.origin + 1] != '\n'))
    decreases |text| - i
  {
    if text[i] == '\r' {
      if n > 0 {
        OriginsAreFaithful(text, if i + 1 < |text| && text[i + 1] == '\n' then i + 2 else i + 1, n - 1);
      }
    } else if SpliceEnd(text, i) > i {
      OriginsAreFaithful(text, SpliceEnd(text, i), n);
    } else if n > 0 {
      OriginsAreFaithful(text, i + 1, n - 1);
    }
  }

  lemma {:induction false} SpacesOnly(text: string, i: nat, q: nat)
    requires i <= |text| && i <= q < SkipSpaces(text, i)
    ensures IsSpliceSpace(text[q])
    decreases |text| - i
  {
    if i < q {
      SpacesOnly(text, i + 1, q);
    }
  }

  /** A byte that is no line end, no backslash and no splice space is never dropped. */
  lemma {:induction false} OrdinaryBytesAreKept(text: string, i: nat, q: nat) returns (n: nat)
    requires i <= q < |text|
    requires text[q] != '\\' && text[q] != '\r' && text[q] != '\n' && !IsSpliceSpace(text[q])
    ensures n < |Units(text, i)| && Units(text, i)[n] == Unit(text[q], q)
    decreases |text| - i
  {
    hide Units, SpliceEnd;
    UnitsAt(text, i);
    var next := if text[i] == '\r' then (if i + 1 < |text| && text[i + 1] == '\n' then i + 2 else i + 1)
                else if SpliceEnd(text, i) > i then SpliceEnd(text, i) else i + 1;
    if i == q {
      SpliceNeedsBackslash(text, i);
      n := 0;
    } else {
      if text[i] != '\r' && q < SpliceEnd(text, i) {
        NothingLostInSplice(text, i, q);
      }
      var m := OrdinaryBytesAreKept(text, next, q);
      n := m + |Units(text, i)| - |Units(text, next)|;
    }
  }

  lemma SpliceNeedsBackslash(text: string, i: nat)
    requires i < |text| && text[i] != '\\'
    ensures SpliceEnd(text, i) == i
  {
  }

  /** A splice takes nothing but spaces and line ends. */
  lemma NothingLostInSplice(text: string, i: nat, q: nat)
    requires i < |text| && i < q < SpliceEnd(text, i)
    ensures IsSpliceSpace(text[q]) || text[q] == '\n' || text[q] == '\r'
  {
    if q < SkipSpaces(text, i + 1) {
      SpacesOnly(text, i + 1, q);
    }
  }

  // ---------------------------------------------------------------- the step map

  datatype MappingStep = MappingStep(logical: nat, physical: nat)

  function Shift(s: MappingStep): int {
    s.physical - s.logical
  }

  function LastOf(steps: seq<MappingStep>): MappingStep
    requires steps != []
  {
    steps[|steps| - 1]
  }

  /** Steps start at logical 0, go up in the logical coordinate, and each adds to the shift; so they go up
      in the physical coordinate as well, by more than in the logical one. */
  ghost predicate StepsOk(steps: seq<MappingStep>) {
    if |steps| <= 1 then |steps| == 1 && steps[0].logical == 0
    else
      var init := steps[..|steps| - 1];
      StepsOk(init) && LastOf(init).logical < LastOf(steps).logical && Shift(LastOf(init)) < Shift(LastOf(steps))
  }

  /** The last step whose logical index is not above l. */
  ghost predicate StepAt(steps: seq<MappingStep>, l: nat, i: nat) {
    i < |steps| && steps[i].logical <= l && (i + 1 < |steps| ==> l < steps[i + 1].logical)
  }

  /** l lies p physically. */
  ghost predicate Maps(steps: seq<MappingStep>, l: nat, p: nat) {
    exists i: nat :: StepAt(steps, l, i) && p == l + Shift(steps[i])
  }

  lemma {:induction false} StepsAreSorted(steps: seq<MappingStep>)
    requires StepsOk(steps)
    ensures steps != [] && steps[0].logical == 0
    ensures forall i, j :: 0 <= i < j < |steps| ==> steps[i].logical < steps[j].logical
    ensures forall i, j :: 0 <= i < j < |steps| ==> Shift(steps[i]) < Shift(steps[j])
  {
    if |steps| > 1 {
      var init := steps[..|steps| - 1];
      StepsAreSorted(init);
      forall i, j | 0 <= i < j < |steps|
        ensures steps[i].logical < steps[j].logical && Shift(steps[i]) < Shift(steps[j])
      {
        assert steps[i] == init[i];
        if j < |steps| - 1 {
          assert steps[j] == init[j];
        } else if i < |init| - 1 {
          assert init[i].logical < LastOf(init).logical && Shift(init[i]) < Shift(LastOf(init));
        }
      }
    }
  }

  /** Between an earlier and a later step both coordinates and the shift have gone up. */
  lemma StepsRise(steps: seq<MappingStep>, i: nat, j: nat)
    requires StepsOk(steps) && i < j < |steps|
    ensures steps[i + 1].logical <= steps[j].logical
    ensures steps[i].logical < steps[j].logical
    ensures Shift(steps[i]) < Shift(steps[i + 1]) <= Shift(steps[j])
    ensures steps[i].physical + 2 <= steps[i + 1].physical <= steps[j].physical
  {
    StepsAreSorted(steps);
    assert i + 1 == j || (steps[i + 1].logical < steps[j].logical && Shift(steps[i + 1]) < Shift(steps[j]));
    assert steps[i].logical < steps[i + 1].logical && Shift(steps[i]) < Shift(steps[i + 1]);
  }

  lemma StepIsUnique(steps: seq<MappingStep>, l: nat, i: nat, j: nat)
    requires StepsOk(steps) && StepAt(steps, l, i) && StepAt(steps, l, j)
    ensures i == j
  {
    if i < j { StepsRise(steps, i, j); } else if j < i { StepsRise(steps, j, i); }
  }

  lemma MapsIsFunctional(steps: seq<MappingStep>, l: nat, p: nat, p': nat)
    requires StepsOk(steps) && Maps(steps, l, p) && Maps(steps, l, p')
    ensures p == p'
  {
    var i: nat :| StepAt(steps, l, i) && p == l + Shift(steps[i]);
    var j: nat :| StepAt(steps, l, j) && p' == l + Shift(steps[j]);
    StepIsUnique(steps, l, i, j);
  }

  /** The last step whose physical offset is not above p. */
  ghost predicate StepAtPhysical(steps: seq<MappingStep>, p: nat, i: nat) {
    i < |steps| && steps[i].physical <= p && (i + 1 < |steps| ==> p < steps[i + 1].physical)
  }

  /** Where a logical index lies physically; without a map, where it is. */
  method LogicalToPhysical(steps: seq<MappingStep>, l: nat) returns (p: nat)
    requires steps == [] || StepsOk(steps)
    ensures if steps == [] then p == l else Maps(steps, l, p)
  {
    if steps == [] {
      return l;
    }
    StepsAreSorted(steps);
    var k := UpperBound(steps, (s: MappingStep) => s.logical, l);
    var step := steps[k - 1];
    p := step.physical + (l - step.logical);
    assert StepAt(steps, l, k - 1);
  }

  /** The inverse lookup, by physical offset; without a map, the identity again. */
  method PhysicalToLogical(steps: seq<MappingStep>, p: nat) returns (l: int, ghost i: nat)
    requires steps == [] || (StepsOk(steps) && steps[0].physical <= p)
    ensures if steps == [] then l == p else StepAtPhysical(steps, p, i) && l == p - Shift(steps[i])
  {
    if steps == [] {
      return p, 0;
    }
    StepsAreSorted(steps);
    forall a, b | 0 <= a < b < |steps| ensures steps[a].physical < steps[b].physical {
      StepsRise(steps, a, b);
    }
    var k := UpperBound(steps, (s: MappingStep) => s.physical, p);
    var step := steps[k - 1];
    l := step.logical + (p - step.physical);
    i := k - 1;
  }

  /** The inverse lookup answers k for the origin of logical character k, and k + 1 one byte later. */
  lemma LookupsAreInverse(steps: seq<MappingStep>, k: nat, p: nat, i: nat, later: nat)
    requires StepsOk(steps) && Maps(steps, k, p) && later <= 1
    requires StepAtPhysical(steps, p + later, i)
    ensures p + later - Shift(steps[i]) == k + later
  {
    var j: nat :| StepAt(steps, k, j) && p == k + Shift(steps[j]);
    assert steps[j].physical <= p;
    if i < j {
      StepsRise(steps, i, j);
    } else if j < i {
      StepsRise(steps, j, i);
    }
  }

  // ---------------------------------------------------------------- the splicer

  /** Each of the first n units sits where the map says. */
  ghost predicate MapsAll(steps: seq<MappingStep>, units: seq<Unit>, n: nat)
    requires n <= |units|
  {
    n == 0 || (Maps(steps, n - 1, units[n - 1].origin) && MapsAll(steps, units, n - 1))
  }

  lemma {:induction false} MapsAllAt(steps: seq<MappingStep>, units: seq<Unit>, n: nat, k: nat)
    requires k < n <= |units| && MapsAll(steps, units, n)
    ensures Maps(steps, k, units[k].origin)
  {
    if k < n - 1 {
      MapsAllAt(steps, units, n - 1, k);
    }
  }

  /** The step map describes the logical characters read from the first r physical bytes. */
  ghost predicate Describes(steps: seq<MappingStep>, units: seq<Unit>, r: nat) {
    && StepsOk(steps)
    && LastOf(steps).logical <= |units|
    && |units| + Shift(LastOf(steps)) == r
    && MapsAll(steps, units, |units|)
  }

  function Updated(steps: seq<MappingStep>, logical: nat, physical: nat): seq<MappingStep>
    requires steps != []
  {
    if LastOf(steps).logical == logical then steps[..|steps| - 1] + [MappingStep(logical, physical)]
    else steps + [MappingStep(logical, physical)]
  }

  lemma UpdatedStepsRise(steps: seq<MappingStep>, w: nat, r: nat)
    requires StepsOk(steps) && LastOf(steps).logical <= w
    requires w + Shift(LastOf(steps)) < r
    ensures StepsOk(Updated(steps, w, r))
    ensures LastOf(Updated(steps, w, r)) == MappingStep(w, r)
  {
    var steps' := Updated(steps, w, r);
    assert steps'[..|steps'| - 1] == if LastOf(steps).logical == w then steps[..|steps| - 1] else steps;
  }

  lemma MappingBelowStays(steps: seq<MappingStep>, w: nat, r: nat, k: nat, p: nat)
    requires steps != [] && k < w && Maps(steps, k, p) && LastOf(steps).logical <= w
    ensures Maps(Updated(steps, w, r), k, p)
  {
    var i: nat :| StepAt(steps, k, i) && p == k + Shift(steps[i]);
    var steps' := Updated(steps, w, r);
    assert steps'[i] == steps[i];
    assert StepAt(steps', k, i);
  }

  lemma {:induction false} AllMappingsStay(steps: seq<MappingStep>, units: seq<Unit>, n: nat, w: nat, r: nat)
    requires n <= |units| && n <= w && MapsAll(steps, units, n)
    requires steps != [] && LastOf(steps).logical <= w
    ensures MapsAll(Updated(steps, w, r), units, n)
  {
    if n > 0 {
      MappingBelowStays(steps, w, r, n - 1, units[n - 1].origin);
      AllMappingsStay(steps, units, n - 1, w, r);
    }
  }

  /** Characters already written keep their place when a step is added at the write position. */
  lemma UpdateKeepsMapping(steps: seq<MappingStep>, units: seq<Unit>, r: nat, r': nat)
    requires Describes(steps, units, r) && r < r'
    ensures Describes(Updated(steps, |units|, r'), units, r')
  {
    UpdatedStepsRise(steps, |units|, r');
    AllMappingsStay(steps, units, |units|, |units|, r');
  }

  lemma {:induction false} PrefixStaysMapped(steps: seq<MappingStep>, units: seq<Unit>, n: nat, more: seq<Unit>)
    requires n <= |units| && MapsAll(steps, units, n)
    ensures MapsAll(steps, units + more, n)
  {
    if n > 0 {
      PrefixStaysMapped(steps, units, n - 1, more);
    }
  }

  /** One more character, from the byte at the read position. */
  lemma WriteKeepsMapping(steps: seq<MappingStep>, units: seq<Unit>, r: nat, ch: char)
    requires Describes(steps, units, r)
    ensures Describes(steps, units + [Unit(ch, r)], r + 1)
  {
    assert StepAt(steps, |units|, |steps| - 1);
    assert Maps(steps, |units|, r);
    PrefixStaysMapped(steps, units, |units|, [Unit(ch, r)]);
  }

  /** CR LF: a step to the LF, and the LF as one more character. */
  lemma CrLfKeepsMapping(steps: seq<MappingStep>, units: seq<Unit>, r: nat)
    requires Describes(steps, units, r)
    ensures steps != [] && Describes(Updated(steps, |units|, r + 1), units + [Unit('\n', r + 1)], r + 2)
  {
    hide Describes, Updated;
    MapIsNonempty(steps, units, r);
    UpdateKeepsMapping(steps, units, r, r + 1);
    WriteKeepsMapping(Updated(steps, |units|, r + 1), units, r + 1, '\n');
  }

  /** What the scan finds at one position. */
  lemma UnitsAt(text: string, r: nat)
    requires r < |text|
    ensures text[r] == '\r' ==>
              if r + 1 < |text| && text[r + 1] == '\n' then Units(text, r) == [Unit('\n', r + 1)] + Units(text, r + 2)
              else Units(text, r) == [Unit('\n', r)] + Units(text, r + 1)
    ensures text[r] != '\r' ==>
              if SpliceEnd(text, r) > r then Units(text, r) == Units(text, SpliceEnd(text, r))
              else Units(text, r) == [Unit(text[r], r)] + Units(text, r + 1)
  {
  }

  /** done, and then the scan from r, is the whole scan. */
  ghost predicate Progress(text: string, done: seq<Unit>, r: nat) {
    r <= |text| && done + Units(text, r) == Units(text, 0)
  }

  lemma Emit(text: string, done: seq<Unit>, r: nat, u: Unit, r': nat)
    requires Progress(text, done, r) && r' <= |text| && Units(text, r) == [u] + Units(text, r')
    ensures Progress(text, done + [u], r')
  {
    assert (done + [u]) + Units(text, r') == done + ([u] + Units(text, r'));
  }

  /** A line end at r, CR LF or CR, whose last byte is at last. */
  lemma EmitLineEnd(text: string, done: seq<Unit>, r: nat, last: nat)
    requires Progress(text, done, r) && r < |text| && text[r] == '\r'
    requires last == if r + 1 < |text| && text[r + 1] == '\n' then r + 1 else r
    ensures Progress(text, done + [Unit('\n', last)], last + 1)
  {
    UnitsAt(text, r);
    Emit(text, done, r, Unit('\n', last), last + 1);
  }

  /** A splice or an ordinary byte at r. */
  lemma EmitOther(text: string, done: seq<Unit>, r: nat)
    requires Progress(text, done, r) && r < |text| && text[r] != '\r'
    ensures SpliceEnd(text, r) > r ==> Progress(text, done, SpliceEnd(text, r))
    ensures SpliceEnd(text, r) == r ==> Progress(text, done + [Unit(text[r], r)], r + 1)
  {
    UnitsAt(text, r);
    if SpliceEnd(text, r) == r {
      Emit(text, done, r, Unit(text[r], r), r + 1);
    }
  }

  /** The buffer is still the original text from r on. */
  ghost predicate Unread(buffer: array<char>, text: string, r: nat)
    reads buffer
  {
    buffer.Length == |text| && forall j :: r <= j < |text| ==> buffer[j] == text[j]
  }

  /** buffer[write_ptr] = c, before everything still to be read. */
  method Put(buffer: array<char>, w: nat, c: char, r: nat, ghost text: string)
    requires w < r <= buffer.Length && Unread(buffer, text, r)
    modifies buffer
    ensures buffer[..w + 1] == old(buffer[..w]) + [c]
    ensures Unread(buffer, text, r)
  {
    buffer[w] := c;
  }

  /** Where the splice at readPtr ends, or readPtr if there is none; the rest of the buffer is still unread. */
  method SpliceTarget(buffer: array<char>, readPtr: nat, ghost text: string) returns (next: nat)
    requires readPtr < buffer.Length && Unread(buffer, text, readPtr)
    ensures next == SpliceEnd(text, readPtr)
  {
    var n := buffer.Length;
    if buffer[readPtr] != '\\' || readPtr + 1 >= n {
      return readPtr;
    }
    var splicePtr := readPtr + 1;
    while splicePtr < n && IsSpliceSpace(buffer[splicePtr])
      invariant readPtr < splicePtr <= n
      invariant SkipSpaces(text, splicePtr) == SkipSpaces(text, readPtr + 1)
    {
      splicePtr := splicePtr + 1;
    }
    if splicePtr < n && buffer[splicePtr] == '\n' {
      return splicePtr + 1;
    }
    if splicePtr < n && buffer[splicePtr] == '\r' {
      if splicePtr + 1 < n && buffer[splicePtr + 1] == '\n' {
        return splicePtr + 2;
      }
      return splicePtr + 1;
    }
    return readPtr;
  }

  /** The in-place splicer: the buffer's front becomes the logical text, and the step map sends every logical
      index to the byte it came from, and the logical end to the physical end. */
  method InitialPreproc(buffer: array<char>) returns (size: nat, map_: seq<MappingStep>)
    modifies buffer
    ensures size <= buffer.Length
    ensures buffer[..size] == Splice(Fold(old(buffer[..])))
    ensures Describes(map_, Units(old(buffer[..]), 0), buffer.Length)
    ensures size == |Units(old(buffer[..]), 0)|
  {
    hide Describes, Units, Splice, Fold, Chars, SpliceEnd, Updated;
    ghost var text := buffer[..];
    ghost var done: seq<Unit> := [];
    var writePtr, readPtr := 0, 0;
    var n := buffer.Length;
    map_ := [MappingStep(0, 0)];
    StartOfScan(text);
    while readPtr < n
      invariant writePtr <= readPtr <= n == buffer.Length == |text|
      invariant Unread(buffer, text, readPtr)
      invariant |done| == writePtr && Progress(text, done, readPtr)
      invariant buffer[..writePtr] == Chars(done)
      invariant Describes(map_, done, readPtr)
      decreases n - readPtr
    {
      var c := buffer[readPtr];
      MapIsNonempty(map_, done, readPtr);
      if c == '\r' {
        if readPtr + 1 < n && buffer[readPtr + 1] == '\n' {
          CrLfKeepsMapping(map_, done, readPtr);
          map_ := Updated(map_, writePtr, readPtr + 1);
          EmitLineEnd(text, done, readPtr, readPtr + 1);
          CharsSnoc(done, Unit('\n', readPtr + 1));
          done := done + [Unit('\n', readPtr + 1)];
          readPtr := readPtr + 2;
          Put(buffer, writePtr, '\n', readPtr, text);
          writePtr := writePtr + 1;
        } else {
          WriteKeepsMapping(map_, done, readPtr, '\n');
          EmitLineEnd(text, done, readPtr, readPtr);
          CharsSnoc(done, Unit('\n', readPtr));
          done := done + [Unit('\n', readPtr)];
          Put(buffer, writePtr, '\n', readPtr + 1, text);
          writePtr := writePtr + 1;
          readPtr := readPtr + 1;
        }
        continue;
      }
      EmitOther(text, done, readPtr);
      var next := SpliceTarget(buffer, readPtr, text);
      if next > readPtr {
        UpdateKeepsMapping(map_, done, readPtr, next);
        readPtr := next;
        map_ := Updated(map_, writePtr, readPtr);
        continue;
      }
      WriteKeepsMapping(map_, done, readPtr, c);
      CharsSnoc(done, Unit(c, readPtr));
      done := done + [Unit(c, readPtr)];
      Put(buffer, writePtr, c, readPtr + 1, text);
      writePtr := writePtr + 1;
      readPtr := readPtr + 1;
    }
    size := writePtr;
    EndOfScan(text, done);
  }

  lemma StartOfScan(text: string)
    ensures Describes([MappingStep(0, 0)], [], 0) && Progress(text, [], 0) && Chars([]) == ""
  {
    assert [] + Units(text, 0) == Units(text, 0);
  }

  lemma EndOfScan(text: string, done: seq<Unit>)
    requires Progress(text, done, |text|)
    ensures done == Units(text, 0) && Chars(done) == Splice(Fold(text))
  {
    assert done + [] == done;
    OnePassIsTwoPhases(text, 0);
    assert text[0..] == text;
  }

  lemma MapIsNonempty(steps: seq<MappingStep>, units: seq<Unit>, r: nat)
    requires Describes(steps, units, r)
    ensures steps != []
  {
  }

  lemma CharsSnoc(us: seq<Unit>, u: Unit)
    ensures Chars(us + [u]) == Chars(us) + [u.ch]
  {
  }

  // ---------------------------------------------------------------- raw strings

  datatype RawResult =
    | RawError
    | Raw(value: string, position: nat)

  predicate IsDelimiterChar(c: char) {
    '\U{0021}' <= c <= '\U{007e}' && c != '(' && c != ')' && c != '\\'
  }

  /** At physical position c stands `)` delimiter `"`. */
  predicate ClosesAt(text: string, delimiter: string, c: nat) {
    c + 1 + |delimiter| < |text| && text[c] == ')' && text[c + 1..c + 1 + |delimiter|] == delimiter
    && text[c + 1 + |delimiter|] == '"'
  }

  /** quote, delimiter and `(` at the front of a raw string literal. */
  predicate OpensWith(text: string, quote: nat, delimiter: string) {
    && quote + 1 + |delimiter| < |text| && text[quote] == '"'
    && text[quote + 1..quote + 1 + |delimiter|] == delimiter && text[quote + 1 + |delimiter|] == '('
    && |delimiter| <= 16 && (forall i :: 0 <= i < |delimiter| ==> IsDelimiterChar(delimiter[i]))
  }

  /** A raw string literal stands at quote: its content ends at the first `)` delimiter `"`. */
  ghost predicate RawLiteral(text: string, quote: nat, delimiter: string, close: nat) {
    && OpensWith(text, quote, delimiter) && quote + 1 + |delimiter| < close && ClosesAt(text, delimiter, close)
    && (forall c :: quote + 1 + |delimiter| < c < close ==> !ClosesAt(text, delimiter, c))
  }

  ghost predicate IsRawLiteral(text: string, quote: nat) {
    exists delimiter, close: nat :: RawLiteral(text, quote, delimiter, close)
  }

  /** The delimiters a raw string may have: up to 16 visible characters other than parentheses and the backslash. */
  lemma DelimitersExactly(d: string)
    ensures OpensWith("\"" + d + "(", 0, d) <==>
            |d| <= 16 && forall i :: 0 <= i < |d| ==> 33 <= d[i] as int <= 126 && d[i] !in {'(', ')', '\\'}
  {
    var text := "\"" + d + "(";
    assert text[1..1 + |d|] == d;
  }

  /** A raw string by its text: a delimiter, a parenthesis, any content in which no closing parenthesis is followed by the
      delimiter and a quote, and the closing. */
  lemma RawLiteralsByText(d: string, content: string, rest: string)
    requires OpensWith("\"" + d + "(", 0, d)
    requires forall k: nat :: k < |content| ==> !ClosesAt(content + (")" + d + "\"" + rest), d, k)
    ensures RawLiteral("\"" + d + "(" + content + (")" + d + "\"" + rest), 0, d, |d| + 2 + |content|)
  {
    hide OpensWith, ClosesAt;
    var front, closing := "\"" + d + "(", ")" + d + "\"" + rest;
    var tail := content + closing;
    assert "\"" + d + "(" + content + closing == front + tail;
    OpensInFront(front, tail, d);
    ClosesBehind(content, d, rest);
    forall k: nat | k <= |content| ensures ClosesAt(front + tail, d, |front| + k) == ClosesAt(tail, d, k) {
      ClosesInTail(front, tail, d, k);
    }
    forall c | 1 + |d| < c < |d| + 2 + |content| ensures !ClosesAt(front + tail, d, c) {
      assert c == |front| + (c - |front|) && !ClosesAt(tail, d, c - |front|);
    }
  }

  lemma OpensInFront(front: string, tail: string, d: string)
    requires OpensWith(front, 0, d)
    ensures OpensWith(front + tail, 0, d)
  {
    assert (front + tail)[1..1 + |d|] == front[1..1 + |d|];
  }

  lemma ClosesInTail(front: string, tail: string, d: string, k: nat)
    ensures ClosesAt(front + tail, d, |front| + k) == ClosesAt(tail, d, k)
  {
    var n := |front|;
    if k + 1 + |d| < |tail| {
      assert (front + tail)[n + k + 1..n + k + 1 + |d|] == tail[k + 1..k + 1 + |d|];
    }
  }

  lemma ClosesBehind(content: string, d: string, rest: string)
    ensures ClosesAt(content + (")" + d + "\"" + rest), d, |content|)
  {
    var closing := ")" + d + "\"" + rest;
    assert closing[1..1 + |d|] == d && closing[1 + |d|] == '"';
    ClosesInTail(content, closing, d, 0);
  }

  lemma FoldAt(text: string, i: nat, end: nat)
    requires i < end <= |text|
    ensures Fold(text[i..end]) ==
            if text[i] == '\r' then
              ['\n'] + (if i + 1 < end && text[i + 1] == '\n' then Fold(text[i + 2..end]) else Fold(text[i + 1..end]))
            else [text[i]] + Fold(text[i + 1..end])
  {
    var s := text[i..end];
    assert s[0] == text[i] && s[1..] == text[i + 1..end];
    assert |s| > 1 ==> s[1] == text[i + 1] && s[2..] == text[i + 2..end];
  }

  lemma Moved(a: string, c: char, b: string)
    ensures (a + [c]) + b == a + ([c] + b)
  {
  }

  method FoldContent(text: string, start: nat, end: nat) returns (value: string)
    requires start <= end <= |text|
    ensures value == Fold(text[start..end])
  {
    hide Fold;
    FoldEmpty(text, end);
    value := "";
    var i := start;
    ghost var whole := Fold(text[start..end]);
    while i < end
      invariant start <= i <= end
      invariant value + Fold(text[i..end]) == whole
    {
      FoldAt(text, i, end);
      var c := text[i];
      if c == '\r' {
        if i + 1 < end && text[i + 1] == '\n' {
          i := i + 1;
        }
        c := '\n';
      }
      Moved(value, c, Fold(text[i + 1..end]));
      value := value + [c];
      i := i + 1;
    }
  }

  lemma FoldEmpty(text: string, end: nat)
    requires end <= |text|
    ensures Fold(text[end..end]) == ""
  {
  }

  datatype DelimiterResult = NoDelimiter | Delimiter(text: string)

  /** The delimiter of a raw string: everything up to the first `(`, if it is short and clean. */
  method ReadDelimiter(text: string, quote: nat) returns (r: DelimiterResult)
    requires quote < |text| && text[quote] == '"'
    ensures r.Delimiter? ==> OpensWith(text, quote, r.text)
    ensures forall d :: OpensWith(text, quote, d) ==> r == Delimiter(d)
  {
    hide OpensWith;
    var cursor := quote + 1;
    while cursor < |text| && text[cursor] != '('
      invariant quote < cursor <= |text| && cursor - (quote + 1) <= 16
      invariant forall i :: quote < i < cursor ==> IsDelimiterChar(text[i])
    {
      if !IsDelimiterChar(text[cursor]) || cursor - (quote + 1) == 16 {
        forall d | OpensWith(text, quote, d) ensures false {
          DelimiterReaches(text, quote, d, cursor);
        }
        return NoDelimiter;
      }
      cursor := cursor + 1;
    }
    forall d | OpensWith(text, quote, d) ensures cursor < |text| && d == text[quote + 1..cursor] {
      DelimiterReaches(text, quote, d, cursor);
    }
    if cursor == |text| {
      return NoDelimiter;
    }
    OpensHere(text, quote, cursor);
    r := Delimiter(text[quote + 1..cursor]);
  }

  lemma OpensHere(text: string, quote: nat, cursor: nat)
    requires quote < cursor < |text| && text[quote] == '"' && text[cursor] == '(' && cursor - (quote + 1) <= 16
    requires forall i :: quote < i < cursor ==> IsDelimiterChar(text[i])
    ensures OpensWith(text, quote, text[quote + 1..cursor])
  {
  }

  /** A literal's delimiter does not stop at a delimiter character and does not run past a `(`. */
  lemma DelimiterReaches(text: string, quote: nat, d: string, cursor: nat)
    requires quote < cursor <= |text|
    requires forall i :: quote < i < cursor ==> IsDelimiterChar(text[i])
    ensures OpensWith(text, quote, d) ==> cursor <= quote + 1 + |d| < |text| && |d| <= 16
    ensures OpensWith(text, quote, d) ==> d == text[quote + 1..quote + 1 + |d|] && text[quote + 1 + |d|] == '('
    ensures OpensWith(text, quote, d) && cursor < quote + 1 + |d| ==> IsDelimiterChar(text[cursor])
  {
    if OpensWith(text, quote, d) && cursor < quote + 1 + |d| {
      assert d[cursor - quote - 1] == text[cursor];
    }
  }

  /** The first `)` delimiter `"` at or after start, or the end of the text. */
  method FindClose(text: string, delimiter: string, start: nat) returns (cursor: nat)
    requires start <= |text|
    ensures start <= cursor <= |text|
    ensures forall c :: start <= c < cursor ==> !ClosesAt(text, delimiter, c)
    ensures cursor < |text| ==> ClosesAt(text, delimiter, cursor)
  {
    cursor := start;
    while cursor < |text| && !ClosesAt(text, delimiter, cursor)
      invariant start <= cursor <= |text|
      invariant forall c :: start <= c < cursor ==> !ClosesAt(text, delimiter, c)
    {
      cursor := cursor + 1;
    }
  }

  /** The logical characters the lexer works on: those of the spliced text, or, without a map, those of the text
      itself. */
  ghost function LogicalUnits(text: string, steps: seq<MappingStep>): seq<Unit> {
    if steps == [] then seq(|text|, i requires 0 <= i < |text| => Unit(text[i], i)) else Units(text, 0)
  }

  ghost predicate MapOf(steps: seq<MappingStep>, text: string) {
    steps == [] || Describes(steps, Units(text, 0), |text|)
  }

  lemma OriginIsMapped(text: string, steps: seq<MappingStep>, position: nat, p: nat)
    requires MapOf(steps, text) && position < |LogicalUnits(text, steps)|
    requires if steps == [] then p == position else Maps(steps, position, p)
    ensures LogicalUnits(text, steps)[position].origin == p < |text|
  {
    hide Units, MapsAll;
    if steps != [] {
      MapsAllAt(steps, Units(text, 0), |Units(text, 0)|, position);
      MapsIsFunctional(steps, position, p, Units(text, 0)[position].origin);
      OriginsAreFaithful(text, 0, position);
    }
  }

  /** Reading a raw string at a logical position: the content comes unspliced from the physical text, and the
      lexer goes on one past the logical index of the closing quote. */
  method ReadRawString(text: string, steps: seq<MappingStep>, position: nat)
    returns (r: RawResult, ghost delimiter: string, ghost close: nat, ghost k: nat)
    requires MapOf(steps, text) && position < |LogicalUnits(text, steps)|
    ensures r.RawError? <==> !IsRawLiteral(text, LogicalUnits(text, steps)[position].origin)
    ensures r.Raw? ==>
              var units, quote := LogicalUnits(text, steps), LogicalUnits(text, steps)[position].origin;
              && RawLiteral(text, quote, delimiter, close)
              && r.value == Fold(text[quote + 2 + |delimiter|..close])
              && k < |units| && units[k] == Unit('"', close + 1 + |delimiter|)
              && r.position == k + 1
  {
    hide LogicalUnits, Fold, MapsAll, Units, Describes;
    delimiter, close, k := "", 0, 0;
    assert steps == [] || StepsOk(steps) by { MapIsOrdered(steps, text); }
    var rawQuote := LogicalToPhysical(steps, position);
    OriginIsMapped(text, steps, position, rawQuote);
    if rawQuote >= |text| || text[rawQuote] != '"' {
      return RawError, delimiter, close, k;
    }
    var d := ReadDelimiter(text, rawQuote);
    if d.NoDelimiter? {
      return RawError, delimiter, close, k;
    }
    delimiter := d.text;
    var open := rawQuote + 1 + |d.text|;
    var cursor := FindClose(text, d.text, open + 1);
    if cursor == |text| {
      return RawError, delimiter, close, k;
    }
    close := cursor;
    assert RawLiteral(text, rawQuote, delimiter, close);
    var value := FoldContent(text, open + 1, cursor);
    var next;
    next, k := ResumeAfter(text, steps, rawQuote, cursor + 1 + |d.text|, position);
    r := Raw(value, next);
  }

  lemma MapIsOrdered(steps: seq<MappingStep>, text: string)
    requires MapOf(steps, text)
    ensures steps == [] || StepsOk(steps)
  {
  }

  /** One past the closing quote, in logical coordinates. */
  method ResumeAfter(text: string, steps: seq<MappingStep>, rawQuote: nat, closing: nat, position: nat)
    returns (next: nat, ghost k: nat)
    requires MapOf(steps, text) && position < |LogicalUnits(text, steps)|
    requires rawQuote == LogicalUnits(text, steps)[position].origin
    requires rawQuote < closing < |text| && text[closing] == '"'
    ensures k < |LogicalUnits(text, steps)| && LogicalUnits(text, steps)[k] == Unit('"', closing) && next == k + 1
  {
    hide Units;
    if steps == [] {
      k := closing;
      var l, i := PhysicalToLogical(steps, closing + 1);
      return l, k;
    }
    k := OrdinaryBytesAreKept(text, 0, closing);
    MapsAllAt(steps, Units(text, 0), |Units(text, 0)|, k);
    MapsAllAt(steps, Units(text, 0), |Units(text, 0)|, position);
    FirstStepIsLeast(steps, position, rawQuote);
    var l;
    ghost var i;
    l, i := PhysicalToLogical(steps, closing + 1);
    LookupsAreInverse(steps, k, closing, i, 1);
    next := l;
  }

  lemma FirstStepIsLeast(steps: seq<MappingStep>, l: nat, p: nat)
    requires StepsOk(steps) && Maps(steps, l, p)
    ensures steps[0].physical <= p
  {
    var i: nat :| StepAt(steps, l, i) && p == l + Shift(steps[i]);
    if i > 0 {
      StepsRise(steps, 0, i);
    }
  }

  // ---------------------------------------------------------------- worked examples

  lemma FoldOne(text: string, c: char, s: string)
    requires text == [c] + s && c != '\r'
    ensures Fold(text) == [c] + Fold(s)
  {
    FoldingFromTheFront(c, s);
  }

  lemma SpliceOne(text: string, c: char, s: string)
    requires text == [c] + s && c != '\\'
    ensures Splice(text) == [c] + Splice(s)
  {
    SplicingFromTheFront("", c, s);
  }

  lemma ExampleFolds()
    ensures Fold("a\\ \r\nb\rc\\x") == "a\\ \nb\nc\\x"
  {
    hide Fold;
    FoldOne("a\\ \r\nb\rc\\x", 'a', "\\ \r\nb\rc\\x");
    FoldOne("\\ \r\nb\rc\\x", '\\', " \r\nb\rc\\x");
    FoldOne(" \r\nb\rc\\x", ' ', "\r\nb\rc\\x");
    FoldingFromTheFront('b', "b\rc\\x");
    assert "\r\n" + "b\rc\\x" == "\r\nb\rc\\x";
    FoldOne("b\rc\\x", 'b', "\rc\\x");
    FoldingFromTheFront('c', "c\\x");
    assert "\r" + "c\\x" == "\rc\\x";
    FoldOne("c\\x", 'c', "\\x");
    FoldOne("\\x", '\\', "x");
    FoldOne("x", 'x', "");
  }

  lemma ExampleSplices()
    ensures Splice("a\\ \nb\nc\\x") == "ab\nc\\x"
  {
    hide Splice;
    SpliceOne("a\\ \nb\nc\\x", 'a', "\\ \nb\nc\\x");
    SplicingFromTheFront(" ", 'x', "b\nc\\x");
    assert "\\" + (" " + ("\n" + "b\nc\\x")) == "\\ \nb\nc\\x";
    SpliceOne("b\nc\\x", 'b', "\nc\\x");
    SpliceOne("\nc\\x", '\n', "c\\x");
    SpliceOne("c\\x", 'c', "\\x");
    SplicingFromTheFront("", 'x', "");
    assert "\\" + ("" + (['x'] + "")) == "\\x" && "" + (['x'] + "") == "x";
    SpliceOne("x", 'x', "");
  }

  /** a, backslash, space, CR LF, b, CR, c, backslash, x is read as ab, a line feed, c, backslash, x. */
  method SpliceExample() returns (text: string)
    ensures text == "ab\nc\\x"
  {
    hide Fold, Splice, Describes, Units;
    var bytes := "a\\ \r\nb\rc\\x";
    var buffer := new char[|bytes|](i requires 0 <= i < |bytes| => bytes[i]);
    assert buffer[..] == bytes;
    var size, map_ := InitialPreproc(buffer);
    ExampleFolds();
    ExampleSplices();
    text := buffer[..size];
  }

  /** A raw string over a spliced line, with delimiter x: its value is the physical text, backslash and all. */
  method RawExample() returns (value: string)
    ensures value == "a\\\nb)"
  {
    hide Units, Describes, Fold, LogicalUnits;
    var text := "\"x(a\\\nb))x\"";
    var buffer := new char[|text|](i requires 0 <= i < |text| => text[i]);
    assert buffer[..] == text;
    var size, map_ := InitialPreproc(buffer);
    FirstUnit(text, map_);
    var r, d, close, k := ReadRawString(text, map_, 0);
    ExampleIsRaw(text);
    assert IsRawLiteral(text, 0) by { assert RawLiteral(text, 0, "x", 8); }
    OneRawLiteral(text, 0, d, close, "x", 8);
    ExampleContent(text);
    value := r.value;
  }

  lemma FirstUnit(text: string, steps: seq<MappingStep>)
    requires text != "" && text[0] != '\r' && text[0] != '\\'
    ensures LogicalUnits(text, steps) != [] && LogicalUnits(text, steps)[0] == Unit(text[0], 0)
  {
  }

  lemma ExampleIsRaw(text: string)
    requires text == "\"x(a\\\nb))x\""
    ensures RawLiteral(text, 0, "x", 8)
  {
    assert text[1..2] == "x" && text[9..10] == "x";
    assert text[8] == ')' && text[10] == '"';
  }

  /** A raw string has one delimiter and one end. */
  lemma OneRawLiteral(text: string, quote: nat, d: string, c: nat, d': string, c': nat)
    requires RawLiteral(text, quote, d, c) && RawLiteral(text, quote, d', c')
    ensures d == d' && c == c'
  {
    DelimiterEndsFirst(text, quote, d, d');
    DelimiterEndsFirst(text, quote, d', d);
  }

  lemma DelimiterEndsFirst(text: string, quote: nat, d: string, d': string)
    requires OpensWith(text, quote, d) && OpensWith(text, quote, d')
    ensures |d'| <= |d|
  {
    DelimiterReaches(text, quote, d', quote + 1);
    var k := quote + 1 + |d|;
    assert forall i :: 0 <= i < |d'| ==> text[quote + 1 + i] == d'[i];
  }

  lemma ExampleContent(text: string)
    requires text == "\"x(a\\\nb))x\""
    ensures Fold(text[3..8]) == "a\\\nb)"
  {
    hide Fold;
    assert text[3..8] == "a\\\nb)";
    FoldOne("a\\\nb)", 'a', "\\\nb)");
    FoldOne("\\\nb)", '\\', "\nb)");
    FoldOne("\nb)", '\n', "b)");
    FoldOne("b)", 'b', ")");
    FoldOne(")", ')', "");
    FoldingFromTheFront('b', "");
  }
}
