# Verified models of a C/C++ front end

This project models the algorithms of the front end whose correctness is hardest to see from their code, and proves what
each of them is for. Check it with `dafny verify dfyconfig.toml` (Dafny 4.11).

Each algorithm that changes state is a class or a method with the same fields and loops as the original, proved against a
function or relation on values; the promises are then theorems about that function. Each function is also tied down without
itself: by laws on its inputs, and by a worked example whose outcome is written out.

| file | what it models |
|---|---|
| `HideSets.dfy` | hash-consed hide sets with memo tables |
| `MacroExpander.dfy` | rescanning of object-like macros with a stack of token sources (C17 section 6.10.3.4) |
| `Conditionals.dfy` | conditional inclusion as a stack machine, against a tree semantics (C17 section 6.10.1) |
| `IncludeGuard.dfy` | the include-guard scanner that lets a file be skipped, on top of `Conditionals` |
| `GuardedSkip.dfy` | exactly when skipping a guarded file is right |
| `Phase2.dfy` | line splicing in place with its position map, and raw strings read through the map (C17 section 5.1.1.2) |
| `SourceLocations.dfy` | the location space: lookup, line tables, expansion chains, import of another manager |
| `ExpansionLocations.dfy` | how macro expansion numbers its tokens, and why caller chains end |
| `PragmaState.dfy` | the pragma-state table: recording, compaction, lookup, import |
| `Mangler.dfy`, `Numerals.dfy` | Itanium type mangling with substitutions (Itanium C++ ABI, section 5.1.10), and a decoder |
| `MangledSpelling.dfy` | when a type is spelled as its normal form is |
| `MangledSymbols.dfy` | symbols of operators and types, written out |
| `LiteralEscape.dfy` | escaping of literal payloads and reading of escapes |
| `Lexing.dfy`, `Lexer.dfy` | one token at a time from C text, as a function and as the lexer object |
| `PrintRelex.dfy` | printing preprocessed tokens and lexing the text again |
| `IntegerLiteral.dfy` | exact values, separators and suffixes of integer literals |
| `TokenStream.dfy` | the parser's token manager with split tokens, as one stream |
| `X86Classify.dfy`, `Hfa.dfy` | argument classification for AMD64 (psABI section 3.2.3) and for homogeneous aggregates (AAPCS64 section 5.9.5) |
| `ScalarBytes.dfy` | scalars in memory in either byte order |
| `Basics.dfy`, `Search.dfy` | optional values, characters with NUL past the end, and `std::upper_bound` |

## Where the code falls short of its purpose

Some expected properties do not hold of the code as it is. Each is kept as it is, with an input that shows it and the exact
condition under which the property does hold.

- A file the guard scanner accepts is not always skippable: an `#else` or `#elif` line at guard depth 1 is not rejected
  (`AcceptedButNotSkippable`). The interior stays skipped exactly when no live one stands there, which is enough but not
  needed (`EmptyElseFileIsSkippable`). Skipping is right exactly when the branches of the guard section are quiet: run on
  what is known of each name, they emit and evaluate nothing and undo every change of a macro (`SkipIsRightExactly`,
  `UndefineFileIsNotSkippable`).
- Blanks forced between printed tokens do not suffice for preprocessing numbers (`1f` and `.`) nor for an identifier `L`,
  `u`, `U` or `u8` in front of a literal (`NumberSwallowsFullStop`, `PrefixSwallowsString`); the condition is
  `RelexExactlyWhenFaithful`, on whole outputs `TextReadsBackExactly`.
- A hexadecimal escape followed by a hexadecimal digit is read back as one longer escape (`DigitAfterEscapeIsLost`, `RoundTripExactlyWhenClean`).
- Recording a pragma state one past the last recorded offset is dropped even if another state is on record for that offset
  (`NewsIsDropped`, `RecordingIsAppendingExactly`); and an out-of-order recording after a compaction can reach past an offset
  that was collapsed away (`CompactionForgetsOffsets`). Over whole runs of recordings, compactions and imports the table
  answers as the log does after every step exactly when neither happens (`RunIsFaithfulExactly`); recordings in order of
  their offsets, and imports behind everything recorded, never do either.
- A homogeneous aggregate whose first member leads down to an empty record is not recognised (`EmptyFirstMemberHidesFloats`,
  `AcceptsExactlyHomogeneous`).
- The mangled name of a type determines it only up to its normal form: `size_t` as `unsigned long`, parameters without their
  own qualifiers, a lone `void` parameter as none (`RoundTrip`). And one normal form may have several names
  (`QualifiersSplitComponents`): a type is named as its normal form is exactly when no two of its components share a normal
  form (`MangledAsNormalExactly`, `SymbolAsNormalExactly`). An identifier such as `operatornew` takes an operator's symbol
  (`IdentifierTakesOperatorSymbol`, `NamesShareSymbolsExactly`).
- A token of a function-like macro's replacement that outgrows the macro body can be reported at the trigger of a macro
  expanded inside an argument (`ReportFiveThroughOne`, `OutgrownTokenShowsArgument`). All tokens are reported at the trigger
  exactly when no entry with another caller has been made below their end (`ExpandFunctionMacro`, `AllAtTriggerExactly`).
- Locations of an imported file that lie before its first recorded pragma state take over the importer's last one
  (`ImporterStateLeaks`, `ImportKeepsStates`).

## Model

| member | source | states |
|---|---|---|
| HideSets.SortedVectorsAreCanonical | preprocessor.cpp:45-54 | a strictly sorted vector is determined by its set of names, which is why interning by vector is interning by set |
| HideSets.IdsAreCanonical | preprocessor.cpp:45-54 | in every well-formed table two ids are equal if and only if they denote equal sets |
| HideSets.InternIsExact | preprocessor.cpp:45-54 | interning finds the vector or appends it, keeps the table well formed and all older vectors in place |
| HideSets.SetUnionIsExact | preprocessor.cpp:80-104 | the merge of two sorted vectors is the sorted vector of the set union |
| HideSets.SetIntersectionIsExact | preprocessor.cpp:106-129 | the common part of two sorted vectors is the sorted vector of the set intersection |
| HideSets.SetInsertIsExact | preprocessor.cpp:56-78 | inserting a name gives the sorted vector of the enlarged set |
| HideSets.SpliceIsInsert | preprocessor.cpp:62-76 | splicing at the lower bound, with the duplicate check, is set insertion |
| HideSets.LowerBound | preprocessor.cpp:56-78 | the binary search returns the first position not below the name |
| HideSets.InsertedVector | preprocessor.cpp:62-76 | the spliced vector is the vector of the enlarged set |
| HideSets.ApplyIsExact | preprocessor.cpp:56-129 | each operation denotes the exact set operation, keeps the table well formed and every older id's meaning |
| HideSets.KnownResult | preprocessor.h:159-168 | an id that already denotes the result is the one recomputation would return, with the table unchanged: a memo hit is as good as a miss |
| HideSets.RunKeepsIdsCanonical | preprocessor.cpp:45-137 | after any run of insert, union and intersect calls ids are canonical and no earlier id has changed its meaning |
| HideSets.PackedKeysAreExact | preprocessor.cpp:61-116 | packing two operands into one 64-bit memo key keeps different pairs apart, so the memo tables on packed keys are memo tables on pairs |
| HideSets.Symmetric | preprocessor.cpp:80-129 | union and intersection do not depend on the operand order that the memo key fixes |
| HideSets.HideSetTable.InternVector | preprocessor.cpp:45-54 | the dedup map and the vector list change exactly as interning says |
| HideSets.HideSetTable.HideSetInsert | preprocessor.cpp:56-78 | memo hit or miss, the id denotes the set with the name added, and id and table are those of the exact insertion |
| HideSets.HideSetTable.HideSetUnion | preprocessor.cpp:80-104 | memo hit or miss, the id denotes the union, and id and table are those of the exact union |
| HideSets.HideSetTable.HideSetIntersect | preprocessor.cpp:106-129 | memo hit or miss, the id denotes the intersection, and id and table are those of the exact intersection |
| HideSets.HideSetTable.HideSetContains | preprocessor.cpp:131-137 | true exactly for members of the denoted set; identifier 0 is never a member |
| MacroExpander.PaintingUsesUpAName | preprocessor.cpp:3183-3213 | a replacement list painted with its own macro's name has strictly fewer names left to expand: the termination measure |
| MacroExpander.ExpandConcat | preprocessor.cpp:4188-4245 | expanding a concatenation is concatenating expansions: rescanning never looks past a token for object-like macros |
| MacroExpander.OutputIsPainted | preprocessor.cpp:4188-4245 | every token that comes out and names a macro has its own name in its hide set |
| MacroExpander.ExpandsByReplacement | preprocessor.cpp:4188-4245 | a token that names a macro it does not hide expands to the expansion of the painted replacement list, and any other token to itself |
| MacroExpander.PaintedByIndex | preprocessor.cpp:3183-3213 | token by token: same text and name, hide set with the trigger's and its name added, and the trigger's spacing on the first |
| MacroExpander.ExpansionIsDetermined | preprocessor.cpp:4188-4245 | any function on token lists that works piece by piece, replaces as said and keeps other tokens is the expansion |
| MacroExpander.ExpandExample | preprocessor.cpp:4248-4300 | with A defined as B, B as 1, C as D and D as C, the loop makes 1 C of A C, each with the spacing of its trigger |
| MacroExpander.ExpansionIsFinal | preprocessor.cpp:4188-4245 | expanding an expansion again changes nothing |
| MacroExpander.WorkConcat | preprocessor.cpp:3986-4039 | the bound on loop turns adds up over pending tokens |
| MacroExpander.Expander.PaintBody | preprocessor.cpp:3183-3213 | hide sets of the replacement list united with the trigger's and the macro's name; the first token takes the trigger's spacing flags |
| MacroExpander.Expander.ExpandObjectMacro | preprocessor.cpp:3183-3213 | pushes exactly the painted replacement list in front of what is pending |
| MacroExpander.Expander.PeelOffExhausted | preprocessor.cpp:3750-3762 | dropping an exhausted source leaves the pending tokens as they are |
| MacroExpander.Expander.NextToken | preprocessor.cpp:3986-4245 | one call returns the head of the recursive expansion of what is pending, leaves the rest pending and decreases the work bound; Eof exactly when nothing more comes out |
| MacroExpander.Expander.ExpandAll | preprocessor.cpp:4248-4300 | for every table of object-like macros, self-recursive or mutually recursive, the stack loop ends, with no bound on the work or the number of hide sets, and emits exactly the recursive hide-set expansion |
| Conditionals.MachineRunsTheTree | preprocessor.cpp:4770-4941 | on every nested text, with macros changing between conditions, the stack machine keeps the text, evaluates the conditions and leaves the macros that the tree semantics does, and its stack comes back unchanged; errors agree too |
| Conditionals.IfChoosesByValue | preprocessor.cpp:4770-4791 | whatever the evaluator: a condition that holds goes on with the body and one that does not with the branches, evaluated once in the macros of that moment; for #elif likewise |
| Conditionals.NameChoosesByMacros | preprocessor.cpp:4793-4921 | #ifdef, #ifndef, #elifdef, #elifndef and !defined go by whether the name is a macro or one of eleven that always answer; a missing name is an error; #else is taken if come to |
| Conditionals.LinesActOnTheWorld | preprocessor.cpp:4050-4146 | text and other directives come out, #define and #undef change the one name they name, blank lines, a lone # and #pragma once leave no trace |
| Conditionals.RunExample | preprocessor.cpp:4050-4146 | a text with two sections comes out as x and w, with the conditions evaluated in order and none behind the branch taken |
| Conditionals.StepKeepsInv | preprocessor.cpp:4770-4941 | one directive keeps: skipping iff some open frame is inactive, and every frame above an inactive one is {true,false} |
| Conditionals.RunKeepsInv | preprocessor.cpp:4770-4941 | the same over every run |
| Conditionals.OneBranchPerSection | preprocessor.cpp:4821-4921 | at most one branch of a section ever becomes active, and none after its first success |
| Conditionals.SkippedItems | preprocessor.cpp:4782-4786 | nested text inside an inactive section changes nothing and evaluates nothing |
| Conditionals.AnsweredBranches | preprocessor.cpp:4864-4870 | once a section is answered its further branches are passed over without a test |
| Conditionals.NestedTextHasATree | preprocessor.cpp:4821-4941 | a line sequence is the text of some tree exactly when its directives match up |
| Conditionals.CleanRunsAreNested | preprocessor.cpp:4923-4941 | a run that meets no error ends with an empty stack exactly on nested text |
| Conditionals.RunConcat | preprocessor.cpp:4050-4146 | a run over two pieces of text is one run after the other |
| Conditionals.ConditionalMachine.HandleIf | preprocessor.cpp:4770-4791 | the #if handler does one step of the machine; from active text it starts skipping exactly if the condition does not hold |
| Conditionals.ConditionalMachine.HandleIfdef | preprocessor.cpp:4793-4819 | a missing name or further tokens on the line are errors, also while skipping, and change nothing; on a line without fault the #ifdef / #ifndef handler does one step of the machine |
| Conditionals.ConditionalMachine.HandleElse | preprocessor.cpp:4821-4844 | the #else handler does one step; active from here on exactly if no branch has been taken |
| Conditionals.ConditionalMachine.HandleElif | preprocessor.cpp:4846-4881 | the #elif handler does one step; decided by the condition if no branch has been taken, and not evaluated otherwise |
| Conditionals.ConditionalMachine.HandleElifdef | preprocessor.cpp:4883-4921 | the #elifdef / #elifndef handler does one step; decided by the name if no branch has been taken |
| Conditionals.ConditionalMachine.HandleEndif | preprocessor.cpp:4923-4941 | the #endif handler pops and restores skipping |
| Conditionals.ConditionalMachine.ProcessLines | preprocessor.cpp:4050-4146 | the line loop runs the machine over the whole text and keeps the invariant |
| IncludeGuard.DetectIncludeGuard | preprocessor.cpp:964-1107 | the scanning loop accepts exactly the files the scan function accepts, with the same guard and the same #pragma once answer |
| IncludeGuard.AcceptedFilesHaveGuardShape | preprocessor.cpp:964-1107 | every accepted file is white space, one section guarded by the reported name, and white space |
| IncludeGuard.AcceptedExactly | preprocessor.cpp:964-1107 | a file is accepted with a guard if and only if it is a heading of blank lines, lone # and #pragma once, one section that opens on the guard and defines it first, and blank lines and lone # |
| IncludeGuard.OnceIsSeenInHeading | preprocessor.cpp:964-1107 | #pragma once is reported exactly if it stands in that heading |
| IncludeGuard.DetectExample | preprocessor.cpp:964-1107 | a file with #pragma once, a guard and a lone # at the end is accepted, with both reported |
| IncludeGuard.GuardedFileIsSkippable | preprocessor.cpp:3161-3167 | with the guard defined and no live alternative at depth 1, the conditional machine emits nothing, changes no macro, evaluates nothing and restores the stack |
| IncludeGuard.AcceptedFileIsSkippable | preprocessor.cpp:3161-3167 | the same for every accepted file, the condition read off the file itself |
| IncludeGuard.SkippedExactlyWithoutLiveAlternative | preprocessor.cpp:1085-1099 | the machine stays skipping through the interior in every environment that defines the guard if and only if no live #else-family line stands at guard depth 1; this suffices for the skip to be right |
| IncludeGuard.ConditionOnTheFile | preprocessor.cpp:1085-1099 | the condition on the guard section is the condition on the whole file |
| IncludeGuard.AcceptedButNotSkippable | preprocessor.cpp:1085-1099 | a concrete accepted file with an #else at depth 1 whose skipped text would have been emitted |
| GuardedSkip.QuietTextDoesNothing | preprocessor.cpp:3161-3167 | text that is quiet on what is known of names leaves text, evaluations and macros as they were at the start, for every world the knowledge describes and every evaluator |
| GuardedSkip.NoisyTextIsNoticed | preprocessor.cpp:3161-3167 | text that is not quiet changes the world for some macro table that agrees with what is known, whatever the evaluator |
| GuardedSkip.InteriorHasBranches | preprocessor.cpp:1085-1099 | the interior of a guard section is a body and branches |
| GuardedSkip.GuardedFileRunsItsBranches | preprocessor.cpp:3161-3167 | running a guarded file with its guard defined is running the branches of its guard section |
| GuardedSkip.SkipIsRightExactly | preprocessor.cpp:3161-3167 | skipping is what running the file would do, for every stack below, world that defines the guard, and evaluator, if and only if the branches of the guard section are quiet |
| GuardedSkip.AcceptedFileSkipIsRightExactly | preprocessor.cpp:964-1107 | the same for every file the scanner accepts |
| GuardedSkip.EmptyElseFileIsSkippable | preprocessor.cpp:1085-1099 | an accepted file with a live but empty #else, which is rightly skipped |
| GuardedSkip.UndefineFileIsNotSkippable | preprocessor.cpp:1085-1099 | an accepted file that emits nothing, but undefines a name, and is wrongly skipped |
| Phase2.OnePassIsTwoPhases | preprocessor.cpp:1109-1177 | the one-pass scan yields the text with line ends folded and then all splices, trailing-space splices included, removed |
| Phase2.FoldingFromTheFront | preprocessor.cpp:1126-1144 | CR LF and any other CR become one LF; every other character stays |
| Phase2.SplicingFromTheFront | preprocessor.cpp:1146-1171 | a backslash goes with the spaces and the line feed behind it, stays if anything else is behind the spaces, and every other character stays |
| Phase2.SpliceExample | preprocessor.cpp:1109-1177 | a text with a splice over a space and CR LF, a lone CR and a backslash that splices nothing |
| Phase2.OriginsAreFaithful | preprocessor.cpp:1109-1177 | every logical character is the physical byte it is mapped to, or a line feed standing for a carriage return that no line feed follows |
| Phase2.OrdinaryBytesAreKept | preprocessor.cpp:1109-1177 | no byte is lost but line ends, backslashes and spaces of splices |
| Phase2.InitialPreproc | preprocessor.cpp:1109-1177 | the in-place pass leaves exactly the spliced text at the front of the buffer, and a step map that sends every logical index, and the logical end, to the byte it came from |
| Phase2.StepsRise | preprocessor.cpp:1109-1177 | the step map is strictly increasing in both coordinates |
| Phase2.MapsIsFunctional | source_mgnt.cpp:584-606 | the map gives every logical index one physical offset |
| Phase2.LogicalToPhysical | lexer.cpp:1063-1075 | the upper-bound lookup returns the mapped physical offset, or the index itself without a map |
| Phase2.PhysicalToLogical | lexer.cpp:1077-1089 | the inverse lookup uses the last step not above the physical offset, and is the identity without a map |
| Phase2.LookupsAreInverse | lexer.cpp:1077-1089 | the inverse lookup takes the origin of logical character k to k, and one byte later to k + 1 |
| Phase2.ReadDelimiter | lexer.cpp:1101-1119 | the raw-string delimiter is found exactly when there is a valid one |
| Phase2.DelimitersExactly | lexer.cpp:1101-1119 | the delimiters are up to 16 visible characters other than parentheses and the backslash |
| Phase2.RawLiteralsByText | lexer.cpp:1101-1142 | a delimiter, a parenthesis, any content without an earlier closing, and the closing make a raw string with that content |
| Phase2.FindClose | lexer.cpp:1120-1142 | the content ends at the first parenthesis, delimiter and quote |
| Phase2.FoldContent | lexer.cpp:1144-1155 | the content loop folds line ends and nothing else |
| Phase2.ReadRawString | lexer.cpp:1056-1166 | with or without a map, a raw string's value is its physical text, folded, up to its own close; the lexer resumes one past the closing quote's logical index; an error exactly when there is no raw string |
| Phase2.RawExample | lexer.cpp:1056-1166 | a raw string across a spliced line, over the spliced text and its map, has the physical characters for its value |
| SourceLocations.TableIsSorted | source_mgnt.cpp:438-450 | entries are strictly sorted from 1 up and below next_offset, files are known, and every expansion's caller lies strictly below it |
| SourceLocations.LookupCountsNewlines | source_mgnt.h:128-134 | the line-table lookup returns the number of line feeds before the offset and the start of its line |
| SourceLocations.PositionIsOnItsLine | source_mgnt.cpp:630-665 | the column counts from the start of the line, which is the start of the file or right behind a line feed, with no line feed up to the offset; without #line the line is one more than the line feeds in front |
| SourceLocations.DirectiveCountsLines | source_mgnt.cpp:648-661 | the last #line directive not behind a line counts it, its own number on its line and one more for each line after |
| SourceLocations.BuildLineOffsets | source_mgnt.h:128-134 | the constructor loop builds the list of line starts |
| SourceLocations.FindIsUnique | source_mgnt.cpp:608-628 | the binary search result is the one the linear search gives |
| SourceLocations.GrowthKeepsLocations | source_mgnt.cpp:444-450 | new entries above a location never change what it means |
| SourceLocations.ImportMovesLocations | source_mgnt.cpp:452-474 | after an import a foreign location shifted by delta has the file, line and column it had, through whole expansion chains |
| SourceLocations.ImportIsRight | source_mgnt.cpp:452-474 | both halves of an import, and the importing table stays in order |
| SourceLocations.SourceManager.CreateFileEntry | source_mgnt.cpp:418-442 | appends one file entry; every existing location keeps its logical location |
| SourceLocations.SourceManager.CreateMacroEntry | source_mgnt.cpp:444-450 | appends one expansion entry; the space stays well founded if and only if the caller lies below next_offset, and then every location of the entry is reported where its caller is and every other keeps its logical location |
| SourceLocations.SourceManager.PreprocessFile | preprocessor.h:109-117 | after line splicing, every location that leads to a logical index of the file, through expansions or not, is reported at the line and column of the physical byte it came from, and one behind the text at the end of the file; locations of other files keep theirs |
| SourceLocations.SourceManager.AddLineDirective | source_mgnt.cpp:648-661 | a #line directive that is not in front of the others moves the reported line and file of exactly the locations that lead to its line or a later one of that file |
| SourceLocations.ShownAtHome | source_mgnt.cpp:630-665 | what is shown of any location is the position of the file offset that its chain of callers leads to |
| SourceLocations.NewDirectiveApplies | source_mgnt.cpp:648-661 | a #line directive in order applies from its line on and to nothing before |
| SourceLocations.SourceManager.GetEntryForLocation | source_mgnt.cpp:608-628 | whatever index the cache holds, the entry is the linear search's |
| SourceLocations.SourceManager.GetRealOffset | source_mgnt.cpp:584-606 | the physical offset of a logical offset through the change list |
| SourceLocations.SourceManager.GetFilePosition | source_mgnt.cpp:630-665 | line, column and file name with #line applied |
| SourceLocations.SourceManager.GetLogicalLocation | source_mgnt.cpp:630-665 | the loop through callers ends, at the logical location of the specification |
| SourceLocations.LocateExample | source_mgnt.cpp:630-665 | in a file of two lines with a #line for the second: line, column and file of a location on each, and of a macro token |
| SourceLocations.SourceManager.ImportForeignBlock | source_mgnt.cpp:452-474 | old locations keep their meaning and foreign ones, shifted, have theirs; entry by entry, every location held is moved and every file is the same |
| ExpansionLocations.SubstBuffer.Perform | preprocessor.cpp:3394-3512 | across appends, paste pops and comma removal the token at index i carries entry base + i, and as many tokens are left as the action says |
| ExpansionLocations.ExpandFunctionMacro | preprocessor.cpp:3731-3749 | the pushed tokens are as many as the steps leave, numbered from the first entry, and lie below next_offset although arguments may outgrow the body; each is reported where the caller of the entry is that its number falls in; all are reported where the trigger is if and only if the caller of every entry made below the end of the tokens is; older locations keep their meaning |
| ExpansionLocations.NumberReplacement | preprocessor.cpp:3288-3564 | after the entry for the body and all steps, the tokens are numbered as specified and every location from the entry on is reported where its caller is |
| ExpansionLocations.LocationsShowExactly | preprocessor.cpp:3288-3564 | whatever holds of the trigger holds of the callers of all locations up to an end if and only if it holds of the caller of every entry that starts below that end |
| ExpansionLocations.AllAtTriggerExactly | preprocessor.cpp:3288-3564 | every token falls in an entry of the trigger if and only if no entry with another caller starts below the end of the tokens, and always if they outgrow the body by one at most |
| ExpansionLocations.OutsideIsTrigger | preprocessor.cpp:3288-3317 | a number outside the entries made while arguments are expanded belongs to the trigger, and so does every number if no expansion is nested |
| ExpansionLocations.OutgrownTokenShowsArgument | preprocessor.cpp:3305-3322 | a body of one token with an argument that expands to five: the number of the fifth token falls in the entry of the macro expanded inside the argument, the other four belong to the trigger |
| ExpansionLocations.ReportFiveThroughOne | preprocessor.cpp:3566-3749 | for I(F) in one line, with I the identity and F five tokens, the fifth pushed token is reported in column 3 and the trigger in column 1 |
| ExpansionLocations.StepKeepsInv | preprocessor.cpp:3214-3749 | one step of lexing, object expansion, substitution, argument expansion or completion keeps callers strictly below their entries |
| ExpansionLocations.RunsKeepLocationsWellFounded | preprocessor.cpp:3214-3749 | over every run, nested argument expansions included, the caller chain of every token ever in circulation is well founded, and no location ever changes its meaning |
| ExpansionLocations.BodyEntryIsTooSmall | preprocessor.cpp:3731-3747 | without the second entry a pushed location would not be below next_offset |
| ExpansionLocations.StepsMakeEntries | preprocessor.cpp:3183-3749 | each step makes the entry the location manager makes for it, and no other |
| Mangler.SeqIdIsInjective | abi/mangle_cir.cpp:561-576 | different indices get different sequence ids |
| Mangler.SeqIdIsOnto | abi/mangle_cir.cpp:561-576 | the sequence ids are exactly S_ and S, a base-36 numeral without leading zeros, and an underscore |
| Mangler.BuildSeqId | abi/mangle_cir.cpp:561-576 | the digit loop builds the sequence id |
| Mangler.ReadSeqIdOf | abi/mangle_cir.cpp:561-576 | a sequence id reads back to its index whatever follows it |
| Mangler.ReadHeadOf | abi/mangle_cir.cpp:2053-2250 | the codes of type constructors, lengths and bounds included, are prefix-free and read back |
| Mangler.ReadBuiltin | abi/mangle_cir.cpp:2368-2398 | every builtin code but that of size_t reads back to its own kind, whatever follows it |
| Mangler.ReadQualsOf | abi/mangle_cir.cpp:2037-2051 | qualifier codes read back in the order r, V, K |
| Mangler.RoundTrip | abi/mangle_cir.cpp:2019-2250 | for every named type, table and following text, a decoder replaying the table recovers the type's normal form, the following text, and the encoder's final table in normal form |
| Mangler.PartsRoundTrip | abi/mangle_cir.cpp:2053-2250 | the same for the component types of a type |
| Mangler.ParamsRoundTrip | abi/mangle_cir.cpp:2157-2181 | parameter lists read back, with v for none |
| Mangler.EncodingIsInjective | abi/mangle_cir.cpp:2019-2250 | encodings from one table are prefix-free and determine the type up to its normal form |
| Mangler.EncodingGrowsTheTable | abi/mangle_cir.cpp:992-1010 | encoding never changes an entry and never enters a component twice, and a type just encoded is in the table: a back-reference names one completed component for good |
| Mangler.BareFunctionTypeRoundTrip | abi/mangle_cir.cpp:1983-2009 | the bare function type, which has no terminator, reads back to the parameters and the ellipsis |
| Mangler.OverloadsHaveDistinctSymbols | abi/mangle_cir.cpp:207-235 | two global functions, operators and literal operators included, share a symbol only with equal names (an identifier spelled like a word operator counting as that operator) and equal normal parameters |
| Mangler.OperatorCodesReadBack | abi/mangle_cir.cpp:17-63 | every code of the operator table is two characters that belong to one operator and, for +, -, * and &, to one number of operands; none starts a literal operator |
| Mangler.SymbolShowsOperator | abi/mangle_cir.cpp:17-63 | the symbol of an operator decodes to it, and for +, -, * and & to one operand exactly if there is one parameter |
| Mangler.NamesShareSymbolsExactly | abi/mangle_cir.cpp:192-235 | with the same parameters two names, of identifiers, operators or literal operators, share a symbol if and only if they are the same name, an identifier spelled like a word operator counting as that operator |
| Mangler.IdentifierTakesOperatorSymbol | abi/mangle_cir.cpp:198-203 | an identifier operatornew gets the symbol of the allocation function |
| Mangler.ItaniumMangler.EmitSubstitution | abi/mangle_cir.cpp:992-1002 | finds the first equal key and writes its sequence id, or writes nothing |
| Mangler.ItaniumMangler.EncodeType | abi/mangle_cir.cpp:2019-2250 | the recursive encoder writes the specified text and leaves the specified table |
| Mangler.ItaniumMangler.EncodeStructure | abi/mangle_cir.cpp:2053-2250 | the switch over the kinds of types writes the specified code and components |
| Mangler.ItaniumMangler.EncodeParameters | abi/mangle_cir.cpp:2164-2176 | v, or each parameter without its own qualifiers |
| Mangler.ItaniumMangler.EncodeBareFunctionType | abi/mangle_cir.cpp:1983-2009 | the parameters left after skipping the first and trailing ones, v for none, and z for an ellipsis, from any table |
| Mangler.ShownByIndex | abi/mangle_cir.cpp:1983-2009 | the parameters a symbol shows: in order, without the first if that is skipped and without the trailing ones |
| Mangler.MangleFunction | abi/mangle_cir.cpp:230-234 | the symbol of a global function that is no template, the operator code chosen by the number of parameters; none for main (line 209) |
| MangledSpelling.EncodingRecordsComponents | abi/mangle_cir.cpp:992-1010 | encoding from a closed table records exactly the components of the type |
| MangledSpelling.NormalTypesRecordNormalComponents | abi/mangle_cir.cpp:2019-2250 | a type in normal form records components in normal form |
| MangledSpelling.SpelledAlike | abi/mangle_cir.cpp:2019-2250 | while no two recorded components share a normal form, a type and its normal form are spelled and recorded alike |
| MangledSpelling.SpelledAsNormalExactly | abi/mangle_cir.cpp:2019-2250 | from any table whose entries differ in normal form, a named type is spelled as its normal form if and only if the entries still differ in normal form afterwards |
| MangledSpelling.MangledAsNormalExactly | abi/mangle_cir.cpp:2019-2250 | the same condition on the type alone: no two of its components share a normal form |
| MangledSpelling.SymbolAsNormalExactly | abi/mangle_cir.cpp:207-235 | a global function is named as with its parameters in normal form if and only if no two components of its parameters share a normal form, and an operator is unary with both or with neither |
| MangledSpelling.QualifiersSplitComponents | abi/mangle_cir.cpp:2014-2035 | f(int (*)(int), int (*)(const int)) is named _Z1fPFiiEPFiiE where its normal form is named _Z1fPFiiES0_ |
| MangledSymbols.ArityOperators | abi/mangle_cir.cpp:17-63 | the symbols of +, -, * and & with one class and with two, written out |
| MangledSymbols.MemoryOperators | abi/mangle_cir.cpp:17-63 | the symbols of new, delete and co_await, written out |
| MangledSymbols.AccessOperators | abi/mangle_cir.cpp:17-63 | the symbols of call, subscript, arrows and comma, written out |
| MangledSymbols.StepOperators | abi/mangle_cir.cpp:17-63 | the symbols of increment, decrement, /, % and ^, written out |
| MangledSymbols.BitOperators | abi/mangle_cir.cpp:17-63 | the symbols of |, ~ and !, written out |
| MangledSymbols.ShiftOperators | abi/mangle_cir.cpp:17-63 | the symbols of shifts and logical operators, written out |
| MangledSymbols.AssignOperators | abi/mangle_cir.cpp:17-63 | the symbols of = and +=, written out |
| MangledSymbols.SubtractOperators | abi/mangle_cir.cpp:17-63 | the symbols of -= and *=, written out |
| MangledSymbols.DivideOperators | abi/mangle_cir.cpp:17-63 | the symbols of /= and %=, written out |
| MangledSymbols.MaskOperators | abi/mangle_cir.cpp:17-63 | the symbols of ^= and &=, written out |
| MangledSymbols.MoveOperators | abi/mangle_cir.cpp:17-63 | the symbols of |= and <<=, written out |
| MangledSymbols.RightMoveOperator | abi/mangle_cir.cpp:17-63 | the symbols of >>=, written out |
| MangledSymbols.LessOperators | abi/mangle_cir.cpp:17-63 | the symbols of < and >, written out |
| MangledSymbols.EqualOperators | abi/mangle_cir.cpp:17-63 | the symbols of == and !=, written out |
| MangledSymbols.AtMostOperators | abi/mangle_cir.cpp:17-63 | the symbols of <= and >=, written out |
| MangledSymbols.SpaceshipOperator | abi/mangle_cir.cpp:17-63 | the symbols of <=>, written out |
| MangledSymbols.CharSymbols | abi/mangle_cir.cpp:2368-2398 | symbols of functions with a parameter of builtin type, written out |
| MangledSymbols.IntegerSymbols | abi/mangle_cir.cpp:2368-2398 | symbols of functions with a parameter of builtin type, written out |
| MangledSymbols.LongSymbols | abi/mangle_cir.cpp:2368-2398 | symbols of functions with a parameter of builtin type, written out |
| MangledSymbols.WideSymbols | abi/mangle_cir.cpp:2368-2398 | symbols of functions with a parameter of builtin type, written out |
| MangledSymbols.FloatingSymbols | abi/mangle_cir.cpp:2368-2398 | symbols of functions with a parameter of builtin type, written out |
| MangledSymbols.DerivedSymbols | abi/mangle_cir.cpp:2053-2250 | pointers, references, complex and block pointers, written out |
| MangledSymbols.CountedSymbols | abi/mangle_cir.cpp:2053-2250 | vectors and arrays of known, unknown and dependent bound, written out |
| MangledSymbols.NumberedSymbols | abi/mangle_cir.cpp:2053-2250 | bit-precise integers and template parameters, written out |
| MangledSymbols.QualifierSymbols | abi/mangle_cir.cpp:2037-2051 | qualifiers in the order r, V, K in front of what they qualify, and none on the parameter itself |
| MangledSymbols.FunctionPointerSymbols | abi/mangle_cir.cpp:2053-2250 | function types with v, z and E, and without exceptions, written out |
| MangledSymbols.MemberPointerSymbol | abi/mangle_cir.cpp:2053-2250 | a member pointer, its class first |
| MangledSymbols.NameSymbols | abi/mangle_cir.cpp:192-235 | no parameters, an ellipsis alone, main, and a literal operator |
| MangledSymbols.SubstitutionSymbol | abi/mangle_cir.cpp:992-1006 | f(char const*, char const*, char const&) with each component written once |
| MangledSymbols.SequenceIds | abi/mangle_cir.cpp:561-576 | sequence ids in base 36 with capital letters |
| Numerals.ValueOfDigits | abi/mangle_cir.cpp:561-576 | digit strings have the value they were made from and no leading zero |
| Numerals.DigitsOfValue | abi/mangle_cir.cpp:561-576 | every numeral without leading zeros is the one made from its value |
| LiteralEscape.EscapeLiteralPayload | token_spelling.h:23-68 | the escaping loop produces the escaped payload |
| LiteralEscape.HexDigitsByPlace | lexer.cpp:373-441 | the hexadecimal digits and their values, in capital and small letters |
| LiteralEscape.BytesAreWritten | token_spelling.h:23-68 | how each byte is written: visible ones as they are, seven controls by letter, the backslash and the quote in use behind a backslash, all others by two capital hexadecimal digits |
| LiteralEscape.LetterEscapes | lexer.cpp:373-441 | the letter escapes; any other character but x, u, U and octal digits stands for itself |
| LiteralEscape.OctalEscapes | lexer.cpp:427-438 | one to three octal digits are a number in base 8 modulo 256 |
| LiteralEscape.HexEscapes | lexer.cpp:393-404 | a hexadecimal escape takes all digits there are, at least one, and is the byte of the last two |
| LiteralEscape.UniversalEscapes | lexer.cpp:405-426 | \u takes exactly four digits and \U exactly eight, as a number in base 16, written in UTF-8 |
| LiteralEscape.Utf8IsDecoded | lexer.cpp:348-372 | every code point but surrogates has bytes, as few as possible, that decode to it |
| LiteralEscape.OrdinaryBody | lexer.cpp:973-1054 | a body of ordinary characters ends at its quote, and without one stops at the line feed or the end |
| LiteralEscape.EscapeInBody | lexer.cpp:973-1054 | a backslash in a body hands on to the escape behind it |
| LiteralEscape.EscapedLiteralIsReread | lexer.cpp:973-1054 | re-lexing an escaped payload always ends at its own closing quote and yields the payload with each hex escape's greedy run swallowed |
| LiteralEscape.RoundTripExactlyWhenClean | lexer.cpp:373-441 | the re-lexed payload is the original if and only if no hex-escaped byte is followed by an ASCII hexadecimal digit, for string and character literals |
| LiteralEscape.CleanByIndex | token_spelling.h:30-68 | that condition, position by position |
| LiteralEscape.DigitAfterEscapeIsLost | token_spelling.h:30-68 | a concrete payload that does not survive |
| LiteralEscape.BodyIsPayload | lexer.cpp:973-1054 | the payload read from a text of bytes is a string of bytes |
| Lexing.MaximalMunch | lexer.cpp:1208-1550 | in C mode the chain of character tests takes the longest punctuator of the language that the text starts with |
| Lexing.FirstOfPunctuator | lexer.cpp:1208-1550 | a punctuator is read with its own length and starts no number or comment |
| Lexing.LineFeedsInBetween | lexer.cpp:1254-1265 | asking for line-feed tokens changes nothing but that they are handed out |
| Lexing.BlanksAreSkipped | lexer.cpp:1254-1271 | which characters are blanks; a line feed is one where line feeds are not asked for; a backslash in front of one goes with it |
| Lexing.LineComments | lexer.cpp:1218-1233 | a line comment reaches up to the line feed, which stays, or to the end |
| Lexing.BlockComments | lexer.cpp:1234-1258 | a block comment ends at the first star and slash behind its opening; without any it is an error |
| Lexing.WordCharacters | lexer.cpp:446-448 | the characters of words and numbers by their codes |
| Lexing.PrefixesByText | lexer.cpp:1300-1326 | each encoding prefix makes a literal of its own kind, and none without a quote |
| Lexing.ExampleNumber | lexer.cpp:873-901 | a preprocessing number with a digit separator, a full stop and a signed exponent, and what stops it |
| Lexing.ExampleFraction | lexer.cpp:873-901 | a preprocessing number that starts with a full stop |
| Lexing.WordsAreTaken | lexer.cpp:902-928 | a word takes all its characters |
| Lexing.StraysByText | lexer.cpp:1507-1548 | a character that starts nothing is a token of unknown kind, a lone backslash with the character behind it |
| Lexers.Lexer.NextToken | lexer.cpp:1208-1550 | with or without line-feed tokens, one call returns the next token of the specification, one of unknown kind included, and leaves the position after it |
| Lexers.Lexer.ReadVisible | lexer.cpp:1254-1548 | literal, number, identifier and punctuator branches; a stray character or an unterminated literal is a token of unknown kind |
| Lexers.Lexer.ReadPunctuator | lexer.cpp:1347-1548 | the longest punctuator, or a stray character, a lone backslash taking the next character with it |
| Lexers.Lexer.SkipBlanks | lexer.cpp:1215-1265 | white space, comments and spliced line ends |
| Lexers.Lexer.SkipNumber | lexer.cpp:873-901 | the preprocessing-number loop |
| Lexers.Lexer.SkipWord | lexer.cpp:902-928 | the identifier loop |
| Lexers.Lexer.ReadEscapeSequence | lexer.cpp:373-441 | escape sequences, with the 32-bit accumulation of hexadecimal values |
| Lexers.Lexer.ReadLiteralBody | lexer.cpp:973-1054 | literal bodies up to their quote; where one breaks off at the end of a line or of the text, the position there |
| PrintRelex.Emit | preprocessor.cpp:4422-4541 | the printing loop writes the specified text: line ends handed out, breaks in front of tokens that start a line or have moved, forced blanks, and a line feed at the end |
| PrintRelex.PastablePairsAreListed | preprocessor.cpp:4404-4415 | the pairs kept apart are exactly the listed ones |
| PrintRelex.LeadByCause | preprocessor.cpp:4386-4418 | what stands between two tokens: the line feeds there are, else a blank if there was one or the two would paste, else nothing; and when two spellings would paste |
| PrintRelex.BreaksByCause | preprocessor.cpp:4455-4520 | the line feeds in front of a token: the line ends handed out, else one if it starts a line or is shown elsewhere than the last one led to |
| PrintRelex.EmitExample | preprocessor.cpp:4422-4541 | x =- - with the minus signs kept apart, two line ends, and a token that has moved on a line of its own |
| PrintRelex.TokenAgain | lexer.cpp:1208-1550 | the spelling of any token, in front of a text that does not continue it, lexes to that token and leaves the text |
| PrintRelex.StopsUnlessBleeds | preprocessor.cpp:4386-4418 | where no blank is forced, the first token stops in front of the second unless the pair bleeds |
| PrintRelex.BleedingIsVisible | preprocessor.cpp:4386-4418 | a bleeding pair printed without a blank never lexes to its first token |
| PrintRelex.RelexExactlyWhenFaithful | preprocessor.cpp:4386-4530 | for every sequence of identifiers, numbers, literals and punctuators, with any blanks and line feeds, the printed text lexes to the same tokens if and only if every literal is clean and no bleeding pair was joined |
| PrintRelex.TextReadsBackExactly | preprocessor.cpp:4422-4541 | the same for the text written for whatever the preprocessor hands out |
| PrintRelex.WithoutNumbersAlwaysFaithful | preprocessor.cpp:4386-4530 | every sequence of identifiers and punctuators re-lexes to itself |
| PrintRelex.NumberSwallowsFullStop | preprocessor.cpp:4386-4418 | 1f and a full stop are printed as 1f. and do not lex to the two tokens |
| PrintRelex.PrefixSwallowsString | preprocessor.cpp:4386-4418 | the identifier L and a string, printed with nothing between them, do not lex to the two tokens |
| PrintRelex.LexerMakesTokens | lexer.cpp:1208-1550 | whatever the lexer finds in a text of bytes satisfies the hypotheses of the re-lexing theorem |
| PragmaState.LatestIsLastOfGreatest | source_mgnt.cpp:491-505 | the meaning of a table, by positions: the last-recorded entry among those with the greatest offset not above the query |
| PragmaState.LatestConcat | source_mgnt.cpp:483-487 | looking up in two tables one after the other is looking up in each |
| PragmaState.SortingKeepsLookups | source_mgnt.cpp:536-539 | stable sorting changes no lookup |
| PragmaState.CollapsingKeepsStates | source_mgnt.cpp:540-556 | collapsing a sorted table changes no state |
| PragmaState.CompactionKeepsStates | source_mgnt.cpp:532-558 | sorting and collapsing any table answers every query as the recordings do |
| PragmaState.BinarySearchFindsLatest | source_mgnt.cpp:491-505 | the entry in front of the upper bound is the latest |
| PragmaState.RecordingIsAppendingExactly | source_mgnt.cpp:507-530 | recording changes lookups exactly as appending does if and only if the dropped call is not news: no other state is on record at that very offset |
| PragmaState.RecordedFaithfully | source_mgnt.cpp:507-530 | from a table that answers as the log does, a recording keeps it so if and only if it is not dropped news and no logged entry above it, with another state in force, has lost everything the table had down to the new offset |
| PragmaState.AppendedFaithfully | source_mgnt.cpp:480-487 | the same for appending any entries, those of an import: no logged entry above one of them has been forgotten |
| PragmaState.ForgetsExactly | source_mgnt.cpp:540-556 | that finite test over recorded entries holds exactly if some lookup would go wrong |
| PragmaState.FaithfulExactly | source_mgnt.cpp:507-558 | over every run of recordings, compactions and imports, compactions of a table marked sorted doing nothing: the table answers as the log does after every step if and only if no step drops news or puts an entry below a forgotten one |
| PragmaState.RunIsFaithfulExactly | source_mgnt.cpp:507-558 | the same from the empty table |
| PragmaState.NewsIsDropped | source_mgnt.cpp:518-524 | a run from the empty table that drops news |
| PragmaState.MonotoneLosesNothing | source_mgnt.cpp:507-530 | recordings in order of their offsets are never dropped wrongly |
| PragmaState.CompactionForgetsOffsets | source_mgnt.cpp:532-558 | a run from the empty table, out of order, whose last recording is put below an entry that compaction has forgotten |
| PragmaState.CompactionIsNotIdempotent | source_mgnt.cpp:532-558 | a table that compaction changes twice, which the sorted mark prevents |
| PragmaState.ImportLosesNothing | source_mgnt.cpp:475-489 | an import behind everything recorded is a step that loses nothing |
| PragmaState.ImportIsOfRecordings | source_mgnt.cpp:475-489 | importing a compacted table answers every query as importing the recordings it stands for |
| PragmaState.PragmaTable.RecordPragmaState | source_mgnt.cpp:507-530 | one recording step of such a run on table, mark and log, the invalid location ignored; in-order recordings are answered as logged, as an invariant |
| PragmaState.PragmaTable.EnsureSorted | source_mgnt.cpp:532-558 | one compaction step of such a run: an unmarked table is sorted and collapsed and marked, a marked one untouched; same answers |
| PragmaState.PragmaTable.GetPackAlignment | source_mgnt.cpp:560-570 | the packing of the last-recorded entry among those with the greatest offset not above the query, 0 if there is none and at the invalid location |
| PragmaState.PackExample | source_mgnt.cpp:507-570 | two recordings out of order and the packing in front of, between and behind them |
| PragmaState.PragmaTable.ImportPragmas | source_mgnt.cpp:475-489 | the foreign table compacted, shifted and renumbered behind the own one: an import step of such a run |
| PragmaState.ImportKeepsStates | source_mgnt.cpp:475-489 | own locations keep their state; an imported one has its own, renumbered, or, before its first entry, the importer's last |
| PragmaState.ImporterStateLeaks | source_mgnt.cpp:475-488 | an imported location with no state of its own that shows the importer's |
| PragmaState.DiagnosticStatesMove | source_mgnt.cpp:475-488 | renumbered diagnostic states are the states they were, except state 0 |
| X86Classify.MergingIsTheRule | abi/x86_64_call_classify.cpp:26-41 | leaf-by-leaf merging with early exits is the rule over the set of leaves: memory iff some leaf forces it, INTEGER iff an integer leaf overlaps the eightbyte, SSE iff only SSE leaves do |
| X86Classify.OnlyTheSetMatters | abi/x86_64_call_classify.cpp:43-165 | the outcome depends only on the set of leaves |
| X86Classify.FieldOrderIsIrrelevant | abi/x86_64_call_classify.cpp:118-164 | reordering fields changes no class |
| X86Classify.FlatteningIsIrrelevant | abi/x86_64_call_classify.cpp:118-164 | replacing a record field by its fields changes no leaf |
| X86Classify.ClassifyState.MarkBytes | abi/x86_64_call_classify.cpp:32-41 | marks the overlapped eightbytes |
| X86Classify.ClassifyState.ClassifyBytes | abi/x86_64_call_classify.cpp:43-165 | the early-exit walk accumulates exactly the leaves of the type |
| X86Classify.FromState | abi/x86_64_call_classify.cpp:167-201 | the result of an accumulator |
| X86Classify.ResultIsTheClass | abi/x86_64_call_classify.cpp:167-201 | that result is the ABI's class over the leaves, mask and slot count included |
| X86Classify.ScalarLeaves | abi/x86_64_call_classify.cpp:60-92 | the bytes and class of each scalar kind; long double and unknown shapes go in memory, void is nothing |
| X86Classify.UnknownGoesInMemory | abi/x86_64_call_classify.cpp:50-60 | what has no layout or is not complete goes in memory |
| X86Classify.ArrayLeaves | abi/x86_64_call_classify.cpp:103-120 | the leaves of an array are those of its elements, element i at i times their size |
| X86Classify.ComplexLeaves | abi/x86_64_call_classify.cpp:92-103 | the leaves of a complex are those of its two parts, one behind the other |
| X86Classify.RecordLeaves | abi/x86_64_call_classify.cpp:121-160 | the leaves of a record are those of its fields at their places; flexible and empty ones have none, misaligned ones go in memory |
| X86Classify.BitFieldLeaves | abi/x86_64_call_classify.cpp:136-146 | a bit-field is INTEGER over exactly the bytes its bits stand in |
| X86Classify.LeavesMove | abi/x86_64_call_classify.cpp:43-165 | a type moved without becoming misaligned has the same leaves, moved |
| X86Classify.OverlapIsASharedByte | abi/x86_64_call_classify.cpp:32-41 | a leaf overlaps an eightbyte exactly if one of its bytes is in it |
| X86Classify.ClassifyExamples | abi/x86_64_call_classify.cpp:205-236 | struct { double a[2]; } has mask 3 and struct { int; float; double; } mask 2 |
| X86Classify.ClassifyArgument | abi/x86_64_call_classify.cpp:205-229 | the whole classification, for every type |
| Hfa.CollectHfaMembers | abi/aarch64_call_classify.cpp:67-140 | from any accumulator, success exactly when the members exist, agree with the kind found, stay within four and do not start with an empty record; the outputs are that kind and count |
| Hfa.AcceptsExactlyHomogeneous | abi/aarch64_call_classify.cpp:67-140 | from count 0, success if and only if the flattened members are one to four of one kind and the first member does not lead down to a record without members |
| Hfa.KindsAccepted | abi/aarch64_call_classify.cpp:67-140 | the kinds an aggregate may be made of, and what long double counts as in each format |
| Hfa.ArrayMembers | abi/aarch64_call_classify.cpp:67-140 | an array of one to four elements has the members of each, one after the other; any other is not suitable |
| Hfa.RecordMembers | abi/aarch64_call_classify.cpp:67-140 | a record has the members of its fields in their order, empty ones left out; an unsuitable field, a union or an incomplete record spoils it |
| Hfa.ClassifyArgument | abi/aarch64_call_classify.cpp:142-187 | when an argument is an HFA, ignored, indirect or passed in integer slots |
| Hfa.EmptyFirstMemberHidesFloats | abi/aarch64_call_classify.cpp:122-139 | the same two members are found or not found depending on which comes first |
| IntegerLiteral.ParsedExactly | numeric_utils.h:94-153 | a text parses exactly if it is a prefix, a digit sequence with single separators and a legal suffix with value below 2^64, and then to that value, base and meaning |
| IntegerLiteral.BasesByText | numeric_utils.h:94-153 | the base and its prefix by the text: 0x, 0b, a 0 in front of something else, and anything else |
| IntegerLiteral.DigitsByPlace | numeric_utils.h:94-153 | the digits and their values |
| IntegerLiteral.ParseExamples | numeric_utils.h:94-153 | 0x1Fu, 0b1'01wb, 017LL and 90 with value, base and meaning |
| IntegerLiteral.ParseIntegerLiteral | numeric_utils.h:94-153 | the parsing loop computes that, no step exceeding 64 bits |
| IntegerLiteral.SeparatorsAreIgnored | numeric_utils.h:116-124 | digit separators never change the value |
| IntegerLiteral.RunTakesDigitSequence | numeric_utils.h:114-138 | the scan takes the whole of a digit sequence |
| IntegerLiteral.RunIsDigitSequence | numeric_utils.h:114-138 | the scan takes nothing but a digit sequence |
| IntegerLiteral.NoWrap | numeric_utils.h:129-134 | the overflow test is exact |
| IntegerLiteral.SuffixAgain | numeric_utils.h:32-92 | every legal suffix is accepted with its meaning |
| IntegerLiteral.SuffixIsRead | numeric_utils.h:32-92 | only legal suffixes are accepted |
| IntegerLiteral.SuffixesExactly | numeric_utils.h:32-92 | a text is a suffix if and only if it is an unsigned mark and a size word, either of which may be missing, in either order |
| IntegerLiteral.LettersShowMeaning | numeric_utils.h:32-92 | a suffix is unsigned with a u, long with an l, long long with two in a row, bit-precise with a w |
| IntegerLiteral.ParseSuffix | numeric_utils.h:32-92 | the suffix parser with its index and flags |
| TokenStream.PeekingIsAdvancing | lexer.cpp:1632-1655 | looking k ahead is looking at the head after k advances |
| TokenStream.TokenMgnt.CurrentToken | lexer.cpp:1735-1743 | the head of the stream |
| TokenStream.TokenMgnt.PeekToken | lexer.cpp:1632-1655 | the k-th token of the stream, split or not |
| TokenStream.TokenMgnt.Advance | lexer.cpp:1657-1671 | drops the head of the stream |
| TokenStream.TokenMgnt.ReplaceCurrentTokenSequence | lexer.cpp:1772-1778 | a nonempty replacement takes the place of the underlying current token |
| TokenStream.TokenMgnt.SetTokenIdx | lexer.cpp:1753-1757 | clears the split state |
| TokenStream.TokenMgnt.SetSplitTokenState | lexer.cpp:1766-1770 | restores a saved split state |
| TokenStream.TokenMgnt.Tentative | lexer.cpp:1753-1770 | saving, running any sequence of operations and restoring gives back the same stream |
| TokenStream.SplitExample | lexer.cpp:1753-1770 | of the tokens 1, 2, 3 the second is split into 7 and 8: the stream goes on 7, 8, 3 |
| ScalarBytes.WriteScalarBits | abi/endian.h:17-36 | the bytes of the image in the order asked for; nothing else is written |
| ScalarBytes.BigIsLittleBackwards | abi/endian.h:31-34 | the big-endian image is the little-endian one backwards |
| ScalarBytes.ExampleImages | abi/endian.h:17-36 | images of a word in both orders, with high bytes and fill |
| ScalarBytes.WriteExample | abi/endian.h:17-36 | 0x01020304 written in both orders and read back |
| ScalarBytes.ReadScalarBits | abi/endian.h:38-53 | the bytes assembled into two words |
| ScalarBytes.ReadAfterWrite | abi/endian.h:17-53 | reading back what was written gives both words cut to the bytes there were, whatever the fill |
| ScalarBytes.WriteAfterRead | abi/endian.h:17-53 | writing what was read restores the bytes |
| Search.UpperBound | source_mgnt.cpp:491-505 | std::upper_bound by a key, for keys in nondecreasing order |

## Left out

- Function-like macro arguments, `#`, `##`, `__VA_OPT__`, `_Pragma`, `#embed` and builtin macros: only the numbering of
  locations in `subst` is modelled, with argument expansion as a step that makes an entry of its own.
- HideSets.HideSetTable.InternVector: hide-set ids and identifiers are unbounded here; the code would wrap at 2^32 hide sets.
- SourceLocations.SourceManager.CreateFileEntry: locations are unbounded here, where the code wraps at 2^32; file lookup and
  caching are not modelled.
- SourceLocations.SourceManager.ImportForeignBlock: files are values, so an import cannot show aliasing between a file and its
  clone.
- ExpansionLocations.ExpandFunctionMacro: the entries made inside arguments are given, not computed by expanding arguments.
- Lines with further tokens after `#ifdef` or `#ifndef`: an error of the handler here, and not among the lines of a run.
- Evaluation of `#if` expressions: an arbitrary function of the expression and the macro environment, which may also fail.
- Line classification: conditionals and the guard scanner are modelled on directive lines; the text-level recognition of
  directives, and the deliberate approximation in `skip_to_next_directive`, are not.
- Include files: `#include` is one of the directives acted on; nesting of files and their conditional stacks is not modelled.
- Mangler.RoundTrip: covers builtins, r/V/K qualifiers, pointers, references, complex, vector, bit-precise integers, arrays,
  functions, member pointers, block pointers, template parameters and global tags, with types interned so that equal structure
  means equal key. Template arguments and expressions, nested names, local and closure names, modules and thunks need
  the intermediate representation and are left out, and so are cv- and ref-qualifiers of member functions, which the code does
  not write.
- Mangler.ItaniumMangler.EmitSubstitution: an entry of the table is one key; lists of alias keys only arise for nested and
  template names.
- Mangler.MangleFunction: only global functions that are no templates and not attached to a module.
- PrintRelex.Emit: line markers, so the output is that of a run without them; where tokens are reported is given.
- PrintRelex.RelexExactlyWhenFaithful: C mode with preprocessing numbers; line markers, user-defined literal suffixes, raw
  strings and C++ or Objective-C punctuators are left out. Keyword types follow from the spelling.
- Lexers.Lexer.NextToken: the position after an error is not specified; the mode that hands out white space as tokens, and
  the flags for leading space and line starts.
- PragmaState.PragmaTable.EnsureSorted: `std::stable_sort` is a function here, stable insertion.
- X86Classify.ClassifyArgument: layout is given data, and offsets do not wrap at 64 bits.
- Hfa.CollectHfaMembers: on failure the accumulators are not specified; the caller does not read them. An array of bound 0 or
  above 4 counts as unsuitable, as in the code.
- Hfa.ClassifyArgument: complex types and variadic arguments, which only branch.
- IntegerLiteral.ParseIntegerLiteral: the type a literal gets from its value and suffix.
- Floating literals, identifier tables and keyword tables, spelling arenas: no hard property.
- Diagnostics, performance counters, file search, toolchain discovery and driver: environment.
- Other ABI code (other targets, Objective-C names, block layouts): declarations or trivial mappings.
