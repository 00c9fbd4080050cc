# Verified models of quickjs-oxide

A Dafny 4.11 model of the parts of quickjs-oxide that carry whole-run guarantees,
with machine-checked proofs of those guarantees. `dafny verify dfyconfig.toml` checks
everything.

**The regular expression engine** (`src/regexp`) is the core.

- `Pattern`, `Matcher` and `MatcherLaws` define what a pattern means: the ordered list of
  all its matches, as section 22.2.2 of ECMA-262 prescribes, by recursion on the syntax tree.
- `Languages` says the same without a direction and without an order: the set of stretches of the input
  that belong to a pattern without back references. Matching finds exactly these, forward and backward.
- `Machine` is the instruction set and the backtracking machine in its simplest form, in
  which every control frame holds a full copy of captures and registers.
- `Code` is the code generator as functions; `CodeBuilder` is the mutable builder that
  appends, patches and allocates registers, proved to emit exactly that code.
- `Runs`, `Leaves`, `Nodes`, `Correctness` and `CompiledPrograms` prove the compiler correct.
  The central notion is `Yields`: from a configuration the machine arrives at an exit once for
  each reference result, in order, and then backtracks into what was below.
- `UndoLog` and `Executor` are the machine as it is written, with one undo log shared by all
  frames, refining the copying machine step by step.
- `Validation`, `GeneratedPrograms` and `Boundaries` are about single states of whole runs:
  assertion scopes, acceptance of generated code, character boundaries.
- `RegisterUse` proves that the registers counted for a pattern are those its code uses.
- `RegExp` puts compile, validate and search together; `CharacterRanges` and `RangeAlgebra`
  are the range sets.
- `Grammar` is the grammar of patterns, legacy and Unicode, as a relation between stretches of a text and
  what they stand for. `GrammarCharacters`, `GrammarSets`, `GrammarClasses`, `GrammarNotation`, `GrammarGroups`
  and `GrammarTrees` prove that the parser accepts exactly the texts of the grammar, with its trees.
- `Prepass` is the lexical scan that counts capture groups before parsing. `Syntax` is the parser as
  functions of the text: how the cursor moves, how groups are numbered and named, and, with
  `ClassContents`, the set of characters and strings that each class denotes. `Trees` is the tree of
  an accepted pattern. `PrepassAgrees` proves that the scan predicts the parser's numbering.
- `ParserObject` is the parser as the object with a cursor that it is; with the set operations of
  `UnicodeSets` it is proved to return exactly those trees. `Compilation` goes from the text of a
  pattern to a validated program and to its matches.
- `ForwardReferences` is about named references to groups further on. The scan that resolves them can
  find a capture that does not exist, or the wrong one: simple properties of the text that rule either
  failure out, and a pattern for each failure. `GeneratedPrograms` has the exact condition under which
  the code of a tree is valid.
- `Printing` prints trees; the parser gives back the tree that was printed.
- `BackwardStrings` is about a class with strings inside a lookbehind, where the compiled code
  departs from the standard: one pattern on which it never halts, and the exact condition
  under which backward class code is right.

**The atom table** (`src/engine/atom`): `AtomNames`, `AtomTables`, `AtomInvariants`, `AtomRuns`
and the object in `AtomTableObject`. A run is any sequence of table operations together with
strings coming to life and dying outside. `AtomAccounts` counts the references over a run.

**The agent coordinator** (`src/engine/api/test262_agent.rs`): `Broadcasts` takes every critical
section as an atomic step and every interleaving of any number of threads as a run;
`AgentWorkersObject` holds the critical sections as methods. `BroadcastCalls` keeps a history of all
calls beside the state and relates every publication, return and delivery to the call it belongs to.

**Source text** (`src/source`): `Coordinates` and `SourceTexts`/`SourceSlices`.

Parameters of the model, in place of code or data outside it: Unicode data (`Syntax.Tables`:
identifiers, properties, case folding), string hashes, and the set of living string cells. Every
result holds for all of them, with two exceptions. Code generation needs case folding to stay within
the code points. `BackwardStrings.RightBackwardIffNoneReadable` is about case foldings that lead to no
surrogate but from itself, as those of Unicode do.

## Model

| member | source | states |
|---|---|---|
| RegExp.Execute | src/regexp/executor.rs:167-232 | for every pattern without strings in lookbehinds, every input and start: compile, validate and search report the first match of the reference matcher at the least successful candidate, or none exactly when no candidate matches; the only failures are too many registers and a start beyond the input |
| RegExp.ExecuteUnits | src/regexp/executor.rs:199-232 | the search over candidates with one reused attempt state finds the least matching boundary from the normalised start, or only that start when sticky |
| RegExp.Attempt | src/regexp/executor.rs:476-507 | a reused and reset state behaves like a fresh one: one attempt returns the captures of the preferred reference match |
| RegExp.MatchIsWellFormed | src/regexp/executor.rs:698-722 | a reported match has all its groups, starts where it was found, and every group is absent or an ordered range of the input |
| CompiledPrograms.AttemptCorrect | src/regexp/compiler.rs:1766-2266 | running the emitted code from any boundary ends in exactly the first reference result with its captures, or in exhaustion when there is none |
| CompiledPrograms.EveryStateDisciplined | src/regexp/compiler.rs:2089-2243 | every attempt halts and stays halted; no state of it faults; every loop sees a counter between 1 and its own initial count, every advance check sees a position |
| CompiledPrograms.FinishCorrect | src/regexp/executor.rs:698-722 | at the final instruction both ends of each group are present or absent together and in order, so finishing never fails |
| Correctness.AtomCorrect | src/regexp/compiler.rs:1831-1955 | the code of any atom, in either direction and at any address, yields the reference results in order, leaves registers below its depth and captures outside its groups alone, then backtracks |
| Correctness.LookAroundCorrect | src/regexp/compiler.rs:1831-1955 | a lookaround yields the first result of its body with the position restored, or the absence of one, and nothing more on backtracking |
| Correctness.CapturingGroupCorrect | src/regexp/compiler.rs:1915-1949 | the save instructions, swapped in backward bodies, record the range of each result of the body |
| Correctness.AlternativesCorrect | src/regexp/compiler.rs:1776-1803 | alternatives are tried in order, each with all its results |
| Correctness.TermsCorrect | src/regexp/compiler.rs:1805-1820 | the code of a sequence yields the reference results of the whole sequence, backward code taking the terms from the last to the first |
| Correctness.LoopCorrect | src/regexp/compiler.rs:2175-2206 | an unbounded loop yields every further repetition in greedy or lazy order and halts: each round moves, or is cut off by the advance check |
| Correctness.CountedCorrect | src/regexp/compiler.rs:2120-2173 | a counted optional loop yields up to its count of repetitions, whatever backtracking does to its counter |
| Correctness.ExactlyCorrect | src/regexp/compiler.rs:2089-2118 | the required loop yields exactly the results of its count of iterations |
| Correctness.IterationCorrect | src/regexp/compiler.rs:2208-2228 | one iteration forgets exactly the groups inside the repeated atom before it starts |
| Correctness.QuantifiedCorrect | src/regexp/compiler.rs:2044-2087 | required and optional parts together are the repetition of section 22.2.2.3.1 of ECMA-262, including its rejection of empty iterations |
| Languages.AttemptDecides | src/regexp/compiler.rs:1766-2266 | for every pattern without back references, and every input and position: the program ends in a match, whose group 0 is a stretch of the pattern's language, exactly when such a stretch starts there, and is exhausted otherwise |
| Languages.TermsMean | src/regexp/compiler.rs:1805-1820 | a sequence, matched in either direction, has a result at a position if and only if the stretch between belongs to its terms one after the other in reading order |
| Languages.AtomMeans | src/regexp/compiler.rs:1831-1955 | the same for every atom: characters, strings, groups, lookarounds |
| Languages.TermMeans | src/regexp/compiler.rs:2044-2087 | the same for a quantified atom: some number of repetitions within the bounds; cutting off empty iterations loses no position |
| Languages.BackwardIsForward | src/regexp/compiler.rs:1805-1820 | matching backward from one cursor leads to another exactly when matching forward from that one leads back |
| Languages.BackwardAlternatives | src/regexp/compiler.rs:1776-1803 | the same for a whole lookbehind body |
| Languages.LiteralsInReadingOrder | src/regexp/compiler.rs:1805-1820 | literal characters, ahead or behind, cover exactly the stretches that read as they are written, up to case where it is ignored |
| Languages.ReferenceCovers | src/regexp/executor.rs:1004-1058 | a back reference, ahead or behind, covers exactly the stretches that read like the text of its group, up to case |
| Languages.GreedyIsLongest | src/regexp/compiler.rs:2120-2206 | the first match tried of a repeated character is the longest one the language allows, of a lazy one the shortest, in either direction |
| Languages.LongestComeFirst | src/regexp/compiler.rs:1957-1992 | the strings of a class are tried from the longest to the shortest, those of one length in the order of words |
| Languages.NullableIsEmpty | src/regexp/compiler.rs:321-365 | what is classified as nullable and has no assertions matches the empty string everywhere in every input |
| Pattern.LeqIsOrderOfWords | src/regexp/compiler.rs:1957-1992 | the order of strings: a continued string comes first, otherwise the first difference decides |
| RegisterUse.RegistersAreUsed | src/regexp/compiler.rs:2230-2243 | a program uses every register below the number counted for its pattern, and none above |
| Leaves.ClassCorrect | src/regexp/compiler.rs:1957-2043 | class code tries the longest strings first, then the ranges, then the empty string |
| Leaves.ReferenceCorrect | src/regexp/executor.rs:1004-1058 | back references compare the first participating group, in either direction, and succeed at once when none participates |
| MatcherLaws.AtomStrict | src/regexp/compiler.rs:321-365 | an atom that is not classified as nullable has only results that move |
| MatcherLaws.AtomNumbered | src/regexp/compiler.rs:332-378 | the capture range of an atom is exactly the interval of groups inside it |
| MatcherLaws.AtomKeeps | src/regexp/compiler.rs:1831-1955 | matching an atom changes no group outside it |
| MatcherLaws.RepeatSplits | src/regexp/compiler.rs:2044-2087 | a repetition is its required part followed by its optional part |
| CodeBuilder.Compile | src/regexp/compiler.rs:1766-1774 | the builder emits exactly the specified program with the specified number of registers, and fails exactly when more than 255 are needed |
| CodeBuilder.Builder.CompileExpression | src/regexp/compiler.rs:1776-1803 | appends the code of the alternatives, every jump patched to the common end, registers released |
| CodeBuilder.Builder.CompileCharacterClass | src/regexp/compiler.rs:1957-2043 | appends the class code with every alternative's split and end jump patched |
| CodeBuilder.Builder.CompileQuantified | src/regexp/compiler.rs:2044-2087 | appends the code of the quantified atom, or runs out of registers exactly when it needs more than are left |
| Executor.AttemptState.RunAttempt | src/regexp/executor.rs:725-965 | the machine with the undo log reports exactly what the copying machine reports |
| Executor.AttemptState.Dispatch | src/regexp/executor.rs:725-965 | one instruction of the log machine is one step of the copying machine |
| Executor.AttemptState.RestoreBacktrack | src/regexp/executor.rs:547-571 | popping frames and rolling back the log resumes the state that the innermost choice point copied |
| Executor.AttemptState.FinishPositiveLookahead | src/regexp/executor.rs:573-620 | dropping the frames of a lookahead and compacting the log in place leaves all copies below unchanged |
| Executor.AttemptState.RejectNegativeLookahead | src/regexp/executor.rs:622-645 | a matched negative lookahead fails into the frames below it |
| Executor.AttemptState.Reset | src/regexp/executor.rs:476-483 | a reset state is a start state |
| Executor.AttemptState.FinishMatch | src/regexp/executor.rs:698-722 | collects both ends of every group or names the first incomplete one |
| Executor.MatchBackReference | src/regexp/executor.rs:1004-1030 | the comparison loop is the specified forward comparison |
| Executor.MatchBackwardBackReference | src/regexp/executor.rs:1032-1058 | the comparison loop is the specified backward comparison |
| UndoLog.WriteRollsBack | src/regexp/executor.rs:647-696 | a write, recorded only if its location is not yet in the log above the checkpoint, leaves every rollback to or below the checkpoint as it was |
| UndoLog.WriteKeepsFrames | src/regexp/executor.rs:647-696 | a write changes none of the copies that the frames stand for |
| UndoLog.RollbackKeepsFrames | src/regexp/executor.rs:533-545 | a rollback changes none of the copies of the frames that remain |
| UndoLog.CompactKeepsFrames | src/regexp/executor.rs:573-620 | a log with the same oldest entry per location above each checkpoint stands for the same copies |
| Validation.ValidateProgram | src/regexp/executor.rs:234-389 | accepts exactly the programs with in-range targets, operands and characters, properly paired lookaheads, and branches that stay in their assertion scope; the error names the first instruction that breaks a rule, and the rule |
| Validation.EveryStateScoped | src/regexp/executor.rs:547-645 | in every state of every run of a valid program the open lookaheads on the control stack are the assertion scopes of the current instruction, and of each saved choice over the frames below it |
| Validation.StepScoped | src/regexp/executor.rs:725-965 | one step of a valid program keeps the scopes and never reports a malformed assertion |
| Validation.InnermostIsChain | src/regexp/executor.rs:234-389 | the innermost open lookahead determines the whole chain, so comparing innermost scopes suffices |
| GeneratedPrograms.ProgramIsValid | src/regexp/compiler.rs:1766-2266 | every program generated from a valid tree passes the validator |
| GeneratedPrograms.ValidIffInRange | src/regexp/compiler.rs:56-82 | the code of a tree with numbered groups and well-formed nodes passes the validator if and only if every reference outside atoms repeated at most zero times is in range |
| Boundaries.EveryStateAtBoundaries | src/regexp/executor.rs:725-965 | in Unicode mode no position, frame, capture or saved position of any state of any program splits a surrogate pair |
| Boundaries.StartAtBoundary | src/regexp/executor.rs:199-232 | an attempt that starts at a boundary starts with everything at boundaries |
| Boundaries.StepAtBoundaries | src/regexp/executor.rs:967-1096 | one step keeps all of them at character boundaries |
| Characters.ForwardThenBackward | src/regexp/executor.rs:986-1096 | reading backward undoes reading forward at a boundary, which it leads to |
| Characters.BackwardThenForward | src/regexp/executor.rs:1060-1096 | reading forward undoes reading backward at a boundary, which it leads to |
| Characters.NormalizedStartIsBoundary | src/regexp/executor.rs:967-978 | the start is moved back to the nearest boundary at or before it |
| Characters.AdvanceReachesNextBoundary | src/regexp/executor.rs:980-984 | the candidate after a failure is the next boundary, none is skipped |
| CharacterRanges.RangeContainsIsMember | src/regexp/executor.rs:1135-1141 | on normalised ranges the binary search decides plain membership |
| RangeAlgebra.NormalizeRanges | src/regexp/compiler.rs:2502-2515 | sorted, disjoint, non-adjacent ranges with the same members |
| RangeAlgebra.UniteRanges | src/regexp/compiler.rs:2419-2423 | the normalised union |
| RangeAlgebra.IntersectRanges | src/regexp/compiler.rs:2439-2457 | the normalised intersection |
| RangeAlgebra.SubtractRanges | src/regexp/compiler.rs:2459-2487 | the normalised difference |
| RangeAlgebra.ComplementRanges | src/regexp/compiler.rs:2517-2534 | normalised, exactly the non-members up to the maximum, and nothing beyond it unless the operand reaches beyond it |
| Compilation.ExecuteText | src/regexp/compiler.rs:2268-2290 | from text, flags and input to the result: a syntax error exactly for the texts the grammar rejects, an internal error exactly for emitted forward references out of range, otherwise the first match of the reference matcher on the tree of the text, or none |
| Compilation.CompileUnits | src/regexp/compiler.rs:2268-2290 | on every text: a program is returned only if valid, and then it is the code of the text's tree with the parser's captures; registers run out exactly when the tree needs more than 255; an internal error occurs exactly when they suffice and an emitted forward reference is out of range |
| Compilation.PrintedIsParsed | src/regexp/compiler.rs:434-478 | printing a tree and parsing the text in Unicode mode, prepass included, gives back the tree |
| Printing.PrintedParses | src/regexp/compiler.rs:480-664 | every tree with single references, numbered and not too deeply nested groups, and classes without strings that case folding leaves alone where case is ignored, is the tree of its text |
| Compilation.ReadyWithoutSets | src/regexp/compiler.rs:434-478 | without the v flag an accepted pattern is ready to match, with no strings in any lookbehind, if and only if its forward references are in range |
| Trees.AcceptedIsArranged | src/regexp/compiler.rs:480-841 | for every accepted pattern groups are numbered in order up to the announced count, and literals, classes and quantifiers are well formed; every reference, decimal or named, is below the count or is what the scan for forward references finds for a name |
| Trees.AcceptedIsValid | src/regexp/compiler.rs:480-841 | the references that code is emitted for are all in range if and only if for each name referred to ahead of its group, outside atoms repeated at most zero times, the scan finds existing captures only |
| Trees.QuantifierValid | src/regexp/compiler.rs:1587-1659 | every quantifier has ordered bounds, clamped to the largest count |
| Trees.DisjunctionHasNoStrings | src/regexp/compiler.rs:1122-1202 | without set notation no class in the tree of a pattern has strings |
| ForwardReferences.RegularInRange | src/regexp/group_name.rs:136-191 | if no group's name is followed by a class or by an escaped bracket, parenthesis or backslash, the scan for forward references finds existing captures only, whatever the name |
| ForwardReferences.ExactResolves | src/regexp/group_name.rs:136-191 | if moreover no capturing group opens right behind a name, the scan finds for every name exactly the captures of the groups with that name in the whole pattern |
| ForwardReferences.ShiftedIsWrong | src/regexp/group_name.rs:136-191 | otherwise it may find an existing but wrong capture: one concrete pattern, with any flags |
| ForwardReferences.RegularIsValid | src/regexp/group_name.rs:136-191 | such a pattern, when accepted, has a valid tree |
| ForwardReferences.QuirkIsInvalid | src/regexp/group_name.rs:136-191 | with any flags one concrete pattern is accepted although its forward reference names a capture that does not exist |
| ForwardReferences.QuirkIsRejected | src/regexp/compiler.rs:56-82 | the validator refuses the code of that pattern |
| ClassContents.SameRanges | src/regexp/compiler.rs:2502-2515 | normalised ranges are determined by their characters |
| ClassContents.DenotedExists | src/regexp/compiler.rs:2502-2515 | every set of code points has normalised ranges |
| ClassContents.ClassOfValid | src/regexp/compiler.rs:2355-2361 | the class of any contents is well formed, and no string of it has one character |
| UnicodeSets.CanonicalizeRanges | src/regexp/compiler.rs:2489-2500 | the normalised ranges of the case-folded characters |
| UnicodeSets.ItemRanges | src/regexp/compiler.rs:2320-2353 | what an item adds to a class without set notation, cut off, folded and complemented in the order of the mode |
| UnicodeSets.ItemToSet | src/regexp/compiler.rs:2363-2402 | what an item adds to a class with set notation |
| UnicodeSets.RangeOfItems | src/regexp/compiler.rs:1144-1186 | two items with a dash: the folded range, an error when it is reversed or in Unicode mode not of characters, three items otherwise |
| UnicodeSets.AddSequence | src/regexp/compiler.rs:2355-2361 | a string of one character is added to the characters, any other to the strings |
| UnicodeSets.UniteSets | src/regexp/compiler.rs:2419-2423 | characters and strings of both operands |
| UnicodeSets.IntersectSets | src/regexp/compiler.rs:2425-2430 | the characters and strings common to both |
| UnicodeSets.SubtractSets | src/regexp/compiler.rs:2432-2437 | the characters and strings of the first operand that are not in the second |
| UnicodeSets.PropertyContents | src/regexp/compiler.rs:904-919 | a property is folded before its complement in set notation, after it otherwise |
| UnicodeSets.FindProperty | src/regexp/compiler.rs:859-902 | a script, general category or binary property by name and value, or in set notation a property of strings |
| UnicodeSets.MakeClass | src/regexp/compiler.rs:1683-1694 | the one normalised class with the given contents |
| Prepass.CaptureSummary | src/regexp/group_name.rs:86-129 | the loops of the prepass compute the lexical scan, with its limit |
| GrammarTrees.ParserIsGrammar | src/regexp/compiler.rs:434-1726 | in every mode, for every text and tree: the parser accepts the text with that tree if and only if the grammar lays the text out as that tree |
| GrammarTrees.PatternRead | src/regexp/compiler.rs:434-1726 | a text that is laid out is accepted, with its tree, its number of captures and its named groups |
| GrammarTrees.PatternFound | src/regexp/compiler.rs:434-1726 | every accepted text is laid out |
| GrammarTrees.LayoutRead | src/regexp/compiler.rs:532-664 | an atom in its place is read as it is laid out: leaves, references, classes, groups, and whether it may be repeated |
| GrammarCharacters.QuantifierExact | src/regexp/compiler.rs:1587-1659 | the parser reads a quantifier exactly where the grammar has one, with its bounds and greediness, and none exactly where it has none |
| GrammarCharacters.ShortForms | src/regexp/compiler.rs:1587-1659 | the star, plus and question mark are short for counts from zero, from one and from zero to one, the lazy forms too |
| GrammarCharacters.LiteralIs | src/regexp/compiler.rs:532-558 | outside classes a stretch is one character if and only if the grammar says so: plain, control, hexadecimal, Unicode, octal or identity escapes, and the legacy fallbacks |
| GrammarCharacters.ClassCharacterIs | src/regexp/compiler.rs:1204-1285 | the same within classes |
| GrammarCharacters.ReferenceIs | src/regexp/compiler.rs:817-962 | a number behind a backslash refers to a group exactly when all its digits together are below the number of captures |
| GrammarClasses.KindAdds | src/regexp/compiler.rs:2292-2318 | what the class escapes add: digits, white space and word characters, or the complement of their case-folded set |
| GrammarClasses.PropertyIs | src/regexp/compiler.rs:843-941 | a property escape by name and value, with its characters or strings |
| GrammarClasses.ClassRead | src/regexp/compiler.rs:1122-1202 | a class without set notation is the normalised class of the union of its parts: characters, escapes, ranges, and the legacy dash |
| GrammarClasses.ClassFound | src/regexp/compiler.rs:1122-1202 | every accepted class is laid out in such parts |
| GrammarNotation.SetRead | src/regexp/compiler.rs:1287-1455 | a class with set notation holds exactly the strings of its unions, intersections, differences, nested classes and complements, taken as sets |
| GrammarNotation.SetFound | src/regexp/compiler.rs:1287-1585 | every accepted one is laid out in such parts |
| GrammarSets.SameClass | src/regexp/compiler.rs:2502-2515 | a class is determined by its members |
| GrammarSets.UniteContains | src/regexp/compiler.rs:2419-2423 | the union of contents is the union of their sets of strings, kept in order |
| GrammarSets.IntersectContains | src/regexp/compiler.rs:2425-2430 | the intersection of contents is the intersection of their sets of strings, kept in order |
| GrammarSets.SubtractContains | src/regexp/compiler.rs:2432-2437 | the difference of contents is the difference of their sets of strings, kept in order |
| GrammarSets.ImageContains | src/regexp/compiler.rs:2404-2417 | folding contents folds each of their strings |
| GrammarGroups.HeadRead | src/regexp/compiler.rs:570-705 | the heads of groups: capture numbers, names without duplicates in one alternative, lookarounds, and which modifiers are on inside |
| GrammarGroups.HeadFound | src/regexp/compiler.rs:570-705 | every accepted head is one of these |
| GrammarGroups.ModifiersAre | src/regexp/compiler.rs:682-705 | a modifier is on if it is added, off if it is removed, and otherwise as outside; letters occur once, on one side, and not all lists are empty |
| GrammarGroups.NameRead | src/regexp/group_name.rs:27-83 | a name of identifier characters, raw or escaped, is read as its normalised units |
| ParserObject.ParseUnits | src/regexp/compiler.rs:434-478 | prepass and parser together accept exactly the texts of the grammar and return their trees, arranged, with the announced captures and names, at most 255; the tree is valid exactly when emitted forward references are in range |
| ParserObject.Parser.ParseDisjunction | src/regexp/compiler.rs:480-493 | the loop over alternatives accepts what the grammar accepts, ends in its state and returns its trees, with a new name scope for each alternative |
| ParserObject.Parser.ParseSequence | src/regexp/compiler.rs:494-530 | the loop over terms accepts what the grammar accepts, ends in its state and returns its terms |
| ParserObject.Parser.ParseGroup | src/regexp/compiler.rs:560-664 | a group opens, numbers itself and closes as the grammar says and returns its tree, with nesting depth and modifiers restored |
| ParserObject.Parser.ParseGroupHead | src/regexp/compiler.rs:570-680 | the head of a group: its capture, its name unless it is a duplicate in the same scope, or its modifiers |
| ParserObject.Parser.ParseEscape | src/regexp/compiler.rs:707-775 | escapes outside classes, their fallbacks and rewinds, and the atoms they stand for |
| ParserObject.Parser.ParseNamedReference | src/regexp/compiler.rs:777-815 | a named reference resolves to the groups parsed so far or else by the scan, or falls back to a literal where the syntax allows |
| ParserObject.Parser.MatchingCaptures | src/regexp/group_name.rs:136-191 | the loops of the scan for forward references, with the unit it skips |
| ParserObject.Parser.ParseUnicodeEscape | src/regexp/compiler.rs:1042-1113 | braced, four-digit and paired escapes with their values, and the cursor where a failure leaves it |
| ParserObject.Parser.ParseLegacyClass | src/regexp/compiler.rs:1122-1202 | a class without set notation holds exactly the characters its text denotes |
| ParserObject.Parser.ParseSetClass | src/regexp/compiler.rs:1287-1455 | a class with set notation holds exactly the characters and strings its text denotes; inverted ones may not hold strings |
| ParserObject.Parser.ParseSetItems | src/regexp/compiler.rs:1307-1435 | nested classes, ranges and operator chains: the union, intersection or difference they denote |
| ParserObject.Parser.ParseSetChain | src/regexp/compiler.rs:1393-1431 | an operator chain, of one operator only, applied from left to right |
| ParserObject.Parser.ParseSetStrings | src/regexp/compiler.rs:1548-1585 | the strings of a disjunction, with case folded where it is ignored |
| ParserObject.Parser.ParseQuantifier | src/regexp/compiler.rs:1587-1659 | a quantifier with its clamped bounds, or in legacy patterns a brace that is none and leaves the cursor where it was |
| ParserObject.Parser.ParseGroupName | src/regexp/group_name.rs:27-83 | the name loop returns the normalised name and the cursor after it, exactly when the grammar accepts it |
| PrepassAgrees.PrepassIsExact | src/regexp/compiler.rs:454-478 | for every accepted pattern in every mode the prepass returns the parser's final capture count and whether a group is named |
| PrepassAgrees.TraceIsExact | src/regexp/compiler.rs:454-478 | the same scan with a memory finds exactly the parser's named groups, in order, each with its capture |
| PrepassAgrees.SetItemsScan | src/regexp/compiler.rs:1297-1455 | nested set classes: wherever the scan believes it is, after the closing bracket it is outside, with the same count |
| PrepassAgrees.ControlScan | src/regexp/compiler.rs:988-1011 | a control escape, or the Annex B rewind to its letter, leaves scan and parser in step |
| PrepassAgrees.GroupNameScan | src/regexp/group_name.rs:27-83 | nothing in a group name means anything to the scan |
| BackwardStrings.LookbehindLoopsForever | src/regexp/compiler.rs:1957-2011 | the code of a starred class with a string in a lookbehind never halts on one concrete input |
| BackwardStrings.RightBackwardIffNoneReadable | src/regexp/compiler.rs:1957-2011 | backward class code agrees with the reference on every input if and only if no text can contain a string of the class: it has no strings, or each has a high surrogate right before a low one |
| AtomNames.ParseCanonicalU32 | src/engine/atom/mod.rs:1401-1424 | recognises exactly the decimal spellings of 32-bit numbers |
| AtomNames.ParsedIffDecimal | src/engine/atom/mod.rs:1401-1424 | a spelling names a number if and only if it is the decimal spelling of that number |
| AtomInvariants.CanonicalCell | src/engine/atom/mod.rs:461-519 | in a valid state at most one living cell per contents has ever been the spelling of a string atom |
| AtomInvariants.InternStringKeeps | src/engine/atom/mod.rs:556-633 | interning, ordinary or predefined, keeps table, pool and cells valid, also when it fails |
| AtomInvariants.RemoveKeeps | src/engine/atom/mod.rs:974-1019 | removal keeps everything valid; the slot is freed in its next generation or retired |
| AtomInvariants.AllocateFills | src/engine/atom/mod.rs:1210-1252 | allocation fails without a change or fills one vacant slot and keeps the free list duplicate-free and vacant |
| AtomInvariants.RecoverFinds | src/engine/atom/mod.rs:461-483 | recovery drops only dead cells and finds the living cell of a spelling if there is one |
| AtomInvariants.SweepKeeps | src/engine/atom/mod.rs:505-519 | sweeping keeps every living cell |
| AtomRuns.NoRevival | src/engine/atom/mod.rs:1335-1350 | over every run, a handle that was live and is not live any more is never live again |
| AtomRuns.RunValid | src/engine/atom/mod.rs:974-1252 | every run keeps slots, free list, intern maps, counters, live count and pool consistent |
| AtomRuns.CanonicalCellAlways | src/engine/atom/mod.rs:992-1000 | the cell of any contents is unique at every moment of every run from an empty table |
| AtomRuns.InternFindsCell | src/engine/atom/mod.rs:556-579 | while a string that came from an atom lives, interning its contents again yields that same cell |
| AtomRuns.InternReversible | src/engine/atom/mod.rs:1097-1150 | an interned string reads back as itself, integers included, and its array index is that of the string |
| AtomRuns.EqualIffSpelledAlike | src/engine/atom/mod.rs:524-579 | two live string atoms are equal if and only if their contents are |
| AtomRuns.ReleaseUndoesRetain | src/engine/atom/mod.rs:778-858 | giving back a reference just taken restores the table |
| AtomAccounts.ReferencesAreOwners | src/engine/atom/mod.rs:556-858 | at every moment of every run: a handle that is out is live; the references of a slot that is not pinned are exactly the handles given out and not given back; a handle that is not live is not out |
| AtomAccounts.ReleaseAnswers | src/engine/atom/mod.rs:841-949 | over every run, giving a handle back is refused when none is out, removes the atom with the last one, and otherwise reports how many are left; pinned atoms answer that they are permanent |
| AtomAccounts.PinnedForever | src/engine/atom/mod.rs:841-949 | a pinned atom is live at the end of every run from there |
| AtomAccounts.PinsWhenAsked | src/engine/atom/mod.rs:556-633 | what is to be pinned, by interning, as a new symbol or by itself, is pinned |
| AtomTableObject.AtomTable.InternText | src/engine/atom/mod.rs:556-633 | the method changes the fields exactly as the state machine of which AtomAccounts.ReferencesAreOwners and AtomRuns.RunValid speak |
| AtomTableObject.AtomTable.InternGlobal | src/engine/atom/mod.rs:654-663 | the method changes the fields exactly as the state machine says |
| AtomTableObject.AtomTable.RecoverReleasedString | src/engine/atom/mod.rs:461-483 | the purging loop with its swap removals finds what recovery specifies |
| AtomTableObject.AtomTable.PurgePool | src/engine/atom/mod.rs:485-503 | the forgetting loop leaves exactly the specified bucket |
| AtomTableObject.AtomTable.AllocateSlot | src/engine/atom/mod.rs:1210-1252 | the method changes the fields exactly as the state machine says |
| AtomTableObject.AtomTable.RemoveReleasedSlot | src/engine/atom/mod.rs:974-1019 | the method changes the fields exactly as the state machine says |
| AtomTableObject.AtomTable.ReleaseAtom | src/engine/atom/mod.rs:841-949 | the method changes the fields exactly as the state machine says |
| Broadcasts.RunSafe | src/engine/api/test262_agent.rs:109-205 | the safety invariant holds in every state of every interleaving |
| Broadcasts.OneAtATime | src/engine/api/test262_agent.rs:147-182 | broadcasts exclude each other |
| Broadcasts.NothingOverwritten | src/engine/api/test262_agent.rs:147-166 | outside a broadcast no delivery is pending, so publishing overwrites none |
| Broadcasts.TakenOnceInOrder | src/engine/api/test262_agent.rs:190-205 | each worker has taken the publications since its start once each and in order, all but at most the latest |
| Broadcasts.ReturnsAfterCohort | src/engine/api/test262_agent.rs:168-182 | a broadcast that has returned was taken by every worker of its invocation-time cohort |
| BroadcastCalls.PublishedAsCalled | src/engine/api/test262_agent.rs:148-166 | over every interleaving each publication carries handle and value of exactly one call, and no call is published twice |
| BroadcastCalls.PublishesOwnCall | src/engine/api/test262_agent.rs:148-166 | a step publishes at most the call its own thread is in, also after it had to wait for its turn |
| BroadcastCalls.ReturnsOwnCall | src/engine/api/test262_agent.rs:168-182 | a call that returns, unless the generations are used up, was published as its own and is recorded as returned |
| BroadcastCalls.TakenByOwner | src/engine/api/test262_agent.rs:190-205 | every delivery taken from a slot was taken by a call made for the worker of that slot |
| BroadcastCalls.CallsAreSteps | src/engine/api/test262_agent.rs:148-205 | the history holds exactly the calls made in the run, in order |
| BroadcastCalls.NoWorkerAfterEnd | src/engine/api/test262_agent.rs:109-144 | a finished session has joined every handle and starts no worker any more |
| AgentWorkersObject.AgentWorkers.PublishToAll | src/engine/api/test262_agent.rs:153-166 | posts one delivery of the next generation to every slot, or fails unchanged when generations are used up |
| AgentWorkersObject.AgentWorkers.AnyOutstanding | src/engine/api/test262_agent.rs:168-178 | decides whether some worker of the cohort has not acknowledged |
| AgentWorkersObject.AgentWorkers.TakePending | src/engine/api/test262_agent.rs:190-205 | takes and acknowledges the pending delivery of the worker's slot, or leaves everything unchanged |
| AgentWorkersObject.AgentWorkers.StartAgent | src/engine/api/test262_agent.rs:109-144 | a started worker has its slot and handle; a failed start leaves no slot behind |
| Coordinates.AdvanceCounts | src/source/coordinates.rs:229-248 | the scan counts newlines and characters since the last one, and overflows exactly when a prefix does |
| Coordinates.AdvancePosition | src/source/coordinates.rs:229-248 | the loop is the specified scan |
| Coordinates.LocateExactly | src/source/coordinates.rs:104-117 | an offset is refused exactly beyond the end or, in known UTF-8, inside a character; otherwise line and column count the newlines before it and the characters since the last one, unless they overflow |
| Coordinates.BuildIndex | src/source/coordinates.rs:120-133 | every checkpoint holds the position of its offset; failure means that the whole scan overflows |
| Coordinates.IndexAgrees | src/source/coordinates.rs:152-190 | an indexed lookup returns what the linear scan returns, errors included |
| Coordinates.HistoryAgrees | src/source/coordinates.rs:192-226 | for every history of queries cursor, index and linear scan agree on each of them |
| Coordinates.SourceCursor.LocateByteOffset | src/source/coordinates.rs:208-226 | the cursor returns what the linear scan returns; a failed query leaves its cache unchanged |
| SourceTexts.DecodeIsEncode | src/engine/value/primitive.rs:1999-2025 | what decodes to a code point is exactly its shortest encoding |
| SourceTexts.EncodeDecodes | src/engine/value/primitive.rs:1999-2025 | the encoding of every code point, surrogates included, decodes to it whatever follows |
| SourceTexts.WellFormedIsPlain | src/source/text.rs:112-182 | well-formed text is read back as its code points, with an empty side table |
| SourceTexts.FirstPieceExact | src/source/text.rs:112-182 | the source begins with the encoding of a code point if and only if its first piece is that code point, surrogate or not; a malformed byte stands exactly where no encoding begins |
| SourceTexts.TryFromRawBytes | src/source/text.rs:112-182 | the loop builds the carrier, markers and invalid offsets of the pieces of the source |
| SourceTexts.Reversible | src/source/text.rs:112-182 | for every byte sequence the raw bytes come back, the carrier is as long, and a copy is kept exactly when the carrier differs |
| SourceSlices.TextHolds | src/source/text.rs:332-378 | the checked invariants of the side tables hold for every source |
| SourceSlices.MarkedIffSurrogate | src/source/text.rs:228-246 | a marker stands exactly where a surrogate was |
| SourceSlices.SliceIsStretch | src/source/text.rs:248-269 | a slice between character boundaries is the text of the pieces between them |
| SourceSlices.SlicesConcatenate | src/source/text.rs:248-282 | the units of adjacent slices concatenate whenever the range they cover holds no malformed byte |
| SourceSlices.ThreeWaySplit | src/source/text.rs:271-282 | any aligned three-way split gives back the units of the whole text |
| SourceSlices.Utf16Units.Next | src/source/text.rs:449-473 | the iterator returns the specified units one by one |

## Left out

- RegExp.Execute: excludes patterns with a class string inside a lookbehind, for which `BackwardStrings` shows that the code does not follow the standard.
- Compilation.ExecuteText: excludes, like RegExp.Execute, patterns with a class string inside a lookbehind.
- Printing.PrintedParses: no text for references to several groups of one name, for class strings, nor for classes that ignoring case would change.
- GrammarTrees.ParserIsGrammar: references to names whose group comes later are those the rough scan finds, as `ForwardReferences` discusses.
- Languages.AttemptDecides: excludes patterns with back references, whose matches depend on captures.
- ParserObject.ParseUnits: error positions and messages, and the list of group names by capture.
- UnicodeSets.CanonicalizeRanges: folds every character; the source skips characters outside its case table, which fold to themselves.
- Broadcasts.RunSafe: no liveness; a broadcast may wait forever, as the source intends.
- Machine: a back reference skips group numbers beyond the capture file, where the source would panic; no valid program has any.
- AtomTables.Allocate: a free slot outside the table, which no reachable table has, reads as a full table instead of a panic.
- Unicode case folding, properties and identifier tables, which are parameters.
- Interrupt polling, out-of-memory results and debug-only ledgers.
- Capture and register numbers are unbounded naturals; the limits of 255 are checked where the source checks them.
- `AtomTable` creation from a list of predefined atoms, symbol descriptions as text, and `brand`/`unbrand` as separate operations.
- `join_workers` is reduced to the removal of handles; realm bindings, worker JavaScript and native host methods.
- Ropes: a string handed to the atom table is already flat.
- One-based display of coordinates, and conversion between source text and JavaScript strings.
- Command line, web playground, adapters, profiling, the Test262 runner and scripts.
