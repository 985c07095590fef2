# Mojito: verified models of its stateful core

Mojito compiles a subset of Mojo. This project models the parts of the compiler
and of its development scripts that keep state or rewrite structure, and proves
what they promise. Imperative code is modelled by methods and classes proved
equal to functions of the inputs or of the old state; the promises are proved of
those functions, over all inputs, all runs, or all interleavings.

- **Speculative fact stores** (`FactStore`, `FactStoreClasses`). A map, a set and
  a vector log their writes and, while a probe is open, journal them. Rolling back
  restores everything after any script of writes and nested probes.
- **The checked arena** (`Arena`, `ArenaExtract`, `ArenaWalk`, `ArenaVisits`,
  `ArenaDeclare`, `ArenaReach`, `ArenaNesting`, `ArenaLive`). Expression and statement
  nodes in two tables name each other by index; a node unfolds to a tree, which gives
  every recursion over both tables its measure. Extraction of a unit is isomorphic and
  canonical, the walk takes every node extraction copies, declarations form a preorder
  forest with one record for each declaring statement reached, over the declarations
  directly nested in its bodies, and erasing dead statements in every block preserves
  meaning.
- **Argument binding** (`CallBinding`, `BracketBinding`). The slot-filling loops
  are sound and complete for a declarative notion of a legal binding.
- **Identity rekeying** (`SyntaxIds`, `Rekey`, `RekeyBound`, `RekeyExact`, `RekeyTree`,
  `RekeyPass`). One pass makes every identity and hidden lambda name it visits unique in
  place and records origins; derived identities, which the program interns in a table,
  mean derivation trees.
- **The roadmap scheduler** (`Roadmap`, `Scheduler`, `RoadmapPasses`, `RunLoop`,
  `RunLaws`). Depth-first work order, cycle check, held-back propagation, and a run loop
  whose sessions may rewrite the roadmap between turns.
- **The package cache** (`PackageCache`, `PackageReturns`, `PackagePrune`). Processes
  that map or build a cached package under a lock file, any of which may crash at any
  step.
- **The timing report** (`Timing`, `TimingLaws`, `TimingPaths`). An event log folded with a stack,
  against a reference that reads each span's time off the log.
- **Display aliases** (`Aliases`). A resolution loop that takes its candidates in
  any order.

`Prelude` and `Numerals` hold what the others share.

## Where a plausible promise fails

Each has a concrete input, and a statement of when the code does keep it.

- *The logged keys are all that changed*: an edit made by a `retain` closure is not
  logged (`RetainEditEscapesLog`). A write keeps the log's cover exactly when it is no
  `retain` that leaves something new behind: a value it keeps that is neither the old
  one nor under a key logged already (`WriteCovers`). A run keeps it throughout exactly
  when no `retain` in it does (`RunCovers`), and the logged keys then rebuild the map
  exactly when no key is gone (`LoggedKeysRebuild`).
- *A unique identity is retained*: a small untagged number can be lost to one generated
  for an earlier repeat (`UniqueIdentityLost`). The promise `rekey_syntax` documents is
  of the parser's identities, whose high bit sets them apart, and it holds: an identity
  that is derived, or larger than the number of occurrences before it, is retained
  exactly where it is met first (`FirstMetIsRetained`). When no lambda name repeats, any
  number is generated exactly when the repeats before it is first met are at least as
  many as the numbers up to it not met by then (`GeneratedExactly`), and an occurrence
  is retained exactly where it is met first and is no such number (`RetainedExactly`).
- *Every identity of the final tree is unique*: the pass never goes into a
  parameter's origin or a trait constant's default, and an identity there can stay a
  duplicate (`SkippedStaysDuplicate`, and `RekeyWithSkipped` on a tree). What the pass
  visits is unique; and when what it skips is labeled as the parser labels, the whole
  tree is unique exactly when the skipped labels are distinct and none is also a visited
  one before the pass (`WholeTreeIsUnique`, `RekeySyntax`). When no lambda name repeats,
  however the skipped parts are labeled, exactly when moreover none is a generated
  number (`WholeTreeExactly`).
- *`origin` of a new identity is the one it had before*: it fails for a derived
  identity whose parent number the pass gave to another node (`DerivedOriginWrong`).
  It holds exactly when the occurrence came in with a plain identity, a repeated one, or
  one derived from a number not generated (`OriginIsExact`, `OriginAtRoot`): a condition
  on the input alone when no lambda name repeats (`OriginExactly`), and met anyway by
  numbers above the count of occurrences (`OriginsReachThroughDerivations`).
- *One process builds while others wait*: a package can be built again right after
  it was published, with no crash and no stale lock (`BuiltTwiceUndisturbed`); a
  process that missed builds whenever the lock is free (`PublishedIsBuiltAgain`), one
  that opened the path and could read it does not (`OpenedIsReturned`), and one that
  takes the lock had failed to when it last looked (`LockTakenAfterMiss`). At most one
  process is at work under a lock until a lock is cleared from under one still at work
  (`LockExcludes`); from then on two can be (`RobbingBreaksExclusion`).
- *No entry with open prerequisites is started*: `--only R2`, and `--start R2
  --until R2`, start an entry whose prerequisite is open (`WaitingEntriesStart`;
  `OnlyStartsRegardless` and `RangeStartsRegardless` for any roadmap). Whatever the
  options, an entry is started free exactly when the run lists it after its open
  prerequisites (`RunStartsFree`): without `--only`, exactly when a range leaves none
  of them out, and with no range always (`RunNeverStartsWaiting`).

## Model

| member | source | states |
|---|---|---|
| FactStore.RollBackRestores | crates/mojito-checked/src/fact_store.rs:149-176 | After any script of map writes and properly nested probes, rolling back restores map, log and journal, with no drain out of range and no count below zero; the probe count is restored exactly when no inner probe was abandoned |
| FactStore.WriteCovers | crates/mojito-checked/src/fact_store.rs:82-147 | From a state whose new or different entries are all logged since a mark, a write keeps it so exactly when it is no `retain` leaving a value that is neither the old one nor under a logged key |
| FactStore.RunCovers | crates/mojito-checked/src/fact_store.rs:66-176 | The log covers at every state of a script, probes and roll-backs included, exactly when each `retain` met is such; outside the probes, exactly when those outside are |
| FactStore.LoggedKeysRebuild | crates/mojito-checked/src/fact_store.rs:66-125 | After a script whose `retain`s outside rolled-back probes are such, the keys logged since its start include every key whose entry is new or different, and overlaying their values on the old map rebuilds the new one exactly when no old key is gone |
| FactStore.RetainEditEscapesLog | crates/mojito-checked/src/fact_store.rs:127-138 | A `retain` closure that edits a value it keeps changes an entry whose key is not logged |
| FactStore.SetRollBackRestores | crates/mojito-checked/src/fact_store.rs:216-281 | The set store has the same roll-back law although it journals only real changes |
| FactStore.SetAgreesWithMap | crates/mojito-checked/src/fact_store.rs:178-281 | Any script run on the set store and the same script run on a map store to unit end with the same keys, log and probe count |
| FactStoreClasses.FactMap.Insert | crates/mojito-checked/src/fact_store.rs:83-90 | The key holds the value given, whatever it held, and every other key what it did; logs the key, journals and returns what it held |
| FactStoreClasses.FactMap.Entry | crates/mojito-checked/src/fact_store.rs:92-98 | The key holds what the caller leaves in the place it gets, every other key what it did; logs the key and journals what it held |
| FactStoreClasses.FactMap.GetMut | crates/mojito-checked/src/fact_store.rs:100-108 | A key that is present holds the value the caller leaves and is logged and journaled; otherwise nothing changes |
| FactStoreClasses.FactMap.Remove | crates/mojito-checked/src/fact_store.rs:110-119 | The key alone is gone; journals but does not log one that was present, and returns what it held |
| FactStoreClasses.FactMap.Extend | crates/mojito-checked/src/fact_store.rs:121-125 | Each key named holds the last value given for it, every other key what it did, and all are logged in order |
| FactStoreClasses.FactMap.Retain | crates/mojito-checked/src/fact_store.rs:127-138 | Journals every entry in some order, then keeps what the closure keeps with the values it leaves |
| FactStoreClasses.FactMap.Clear | crates/mojito-checked/src/fact_store.rs:140-147 | Journals every entry in some order, then empties the map |
| FactStoreClasses.FactMap.RollBack | crates/mojito-checked/src/fact_store.rs:160-169 | Drains the journal newest first down to the mark, cuts the log, and closes one probe |
| FactStoreClasses.FactSet.Insert | crates/mojito-checked/src/fact_store.rs:217-227 | Logs every key, journals only a new one, and says whether it was new |
| FactStoreClasses.FactSet.Extend | crates/mojito-checked/src/fact_store.rs:237-241 | Holds what it held and all it is given, logged in order |
| FactStoreClasses.FactSet.Retain | crates/mojito-checked/src/fact_store.rs:243-250 | Journals exactly the keys dropped |
| FactStoreClasses.FactSet.RollBack | crates/mojito-checked/src/fact_store.rs:271-281 | Undoes the journal newest first down to the mark |
| FactStoreClasses.FactVec.RollBack | crates/mojito-checked/src/fact_store.rs:326-335 | Truncating to the mark gives back the items there were, without a journal |
| Arena.Unfolds | crates/mojito-checked/src/checked.rs:5487-5562 | A table stored children first unfolds to a finite tree from each of its nodes, across both tables |
| Arena.DenotesUnique | crates/mojito-checked/src/checked.rs:3927-3938 | A node unfolds to at most one tree |
| Arena.EmitDenotes | crates/mojito-checked/src/checked.rs:5493-5562 | Laying a tree out children first gives identities equal to positions, every child before its parent, and unfolds back to the tree |
| Arena.EarlierStoredFirst | crates/mojito-checked/src/checked.rs:4009-4012 | Operands are stored in build order: when one is yet to be stored, all before it are, it is not, and nothing stored from then on names what is there |
| ArenaExtract.Extraction.Copy | crates/mojito-checked/src/checked.rs:5535-5562 | Copying a node and all under it from any acyclic arena gives the layout of the tree it unfolds to, and copies just the nodes the traversal reaches |
| ArenaExtract.Extract | crates/mojito-checked/src/checked.rs:4013-4075 | Extraction with no shell and no wrapper body gives the unit of the root's tree, declarations patched and renumbered |
| ArenaExtract.UnitIsomorphic | crates/mojito-checked/src/checked.rs:4004-4075 | The unit is stored in order, its root unfolds to the source tree, declarations renumbered by an increasing map onto those the copied statements name, each keeping its record and its copied children in order |
| ArenaExtract.ExtractionIsCanonical | crates/mojito-checked/src/checked.rs:4004-4075 | Extracting a unit from its own root gives identical tables |
| ArenaWalk.WalkTakesEachOnce | crates/mojito-checked/src/checked.rs:4152-4227 | The walk's order over a statement takes every operand and body exactly once, `if` and `match` interleaving included |
| ArenaWalk.WalkVisitsCopies | crates/mojito-checked/src/checked.rs:3952-3989 | A walk that always advances visits, with multiplicity, exactly the nodes extraction copies |
| ArenaVisits.VisitsFollowAnswers | crates/mojito-checked/src/checked.rs:3952-3989 | Whatever the visitor answers, the node comes first and then, each once, the visits under its operands: none on `Skip`, only expressions' on `SkipBodies`, all on `Advance` |
| ArenaVisits.SubtreesStandTogether | crates/mojito-checked/src/checked.rs:3952-3989 | What is visited under an operand is one run of visits after the node, so a node comes before all under it |
| ArenaVisits.ConditionBeforeBranch | crates/mojito-checked/src/checked.rs:4176-4188 | An `if` takes each condition before its own branch, and each branch before all that follows it |
| ArenaVisits.ExpressionsBeforeBodies | crates/mojito-checked/src/checked.rs:4218-4226 | Any other statement but a `match` takes its expressions before its bodies, each in order |
| ArenaDeclare.Declare | crates/mojito-checked/src/checked.rs:4114-4136 | The pass stores exactly the forest of declarations of the roots and members and names each declaring statement |
| ArenaDeclare.Declarer.Statement | crates/mojito-checked/src/checked.rs:4258-4321 | The lambdas of a statement's own expressions are declared before its own declaration or its bodies' |
| ArenaDeclare.NumberingIsPreorder | crates/mojito-checked/src/checked.rs:4109-4136 | Identities are positions, each declaration's descendants are exactly the records right after it, and each declaration is named once among the roots and child lists |
| ArenaReach.RecordsAreArrivals | crates/mojito-checked/src/checked.rs:4258-4377 | Each statement of a declaring kind, by list, has exactly as many records as the pass comes to it from the roots and trait members: through every body but those of traits and of variable, reference and compile-time declarations, own expressions, operands and lambdas |
| ArenaReach.ReachedNamesItsLast | crates/mojito-checked/src/checked.rs:4114-4136 | Each declaring statement the pass comes to names the last of its records, and no other statement changes |
| ArenaReach.EachReachedNamesItsOwn | crates/mojito-checked/src/checked.rs:4114-4136 | A declaring statement the pass comes to once has exactly one record and names it |
| ArenaReach.CopiedOnceNamesItsOwn | crates/mojito-checked/src/checked.rs:4114-4136 | A statement roots and members copy at most once between them has, when the pass comes to it and it declares, exactly one record and names it, and else is left as it was |
| ArenaReach.ArrivalsWithinCopies | crates/mojito-checked/src/checked.rs:4255-4377 | The pass comes to a statement no more often than an extraction copies it |
| ArenaReach.NoneReachedTwice | crates/mojito-checked/src/checked.rs:4114-4136 | The pass comes at most once to a statement roots and members copy at most once between them |
| ArenaNesting.ChildrenAreDirect | crates/mojito-checked/src/checked.rs:4255-4345 | Each record is of its statement's kind and name, by list, and its children are, in source order, the declarations directly nested in that statement's bodies; the records named by none are those directly at the roots and members |
| ArenaLive.LiveStatements | crates/mojito-checked/src/checked.rs:3998-4002 | Returns the prefix up to the first statement that ends the block |
| ArenaLive.NodeEndsBlock | crates/mojito-checked/src/checked.rs:4229-4243 | Says whether a statement leaves its block or is a scope whose live statements end so |
| ArenaLive.LiveIsFirstEnding | crates/mojito-checked/src/checked.rs:3991-4002 | Nothing before the prefix's last statement ends the block, and nothing is dead unless that one does |
| ArenaLive.LiveIsFixpoint | crates/mojito-checked/src/checked.rs:3991-4002 | The live prefix is its own live prefix |
| ArenaLive.EndsWhenStops | crates/mojito-checked/src/checked.rs:4229-4243 | A statement ends its block exactly when it is a `return`, `raise`, `break` or `continue`, or a scope some statement of which ends it |
| ArenaLive.LiveUntilStopped | crates/mojito-checked/src/checked.rs:3991-4002 | A statement is live exactly when none before it is such, so whatever follows one is dropped |
| ArenaLive.ScopeEndsWhenSomeDoes | crates/mojito-checked/src/checked.rs:4229-4243 | A scope ends its block exactly when some statement of it does |
| ArenaLive.LiveRunsTheSame | crates/mojito-checked/src/checked.rs:3991-3997 | Under any semantics where leaving statements never complete and a scope completes as its body does, the prefix has the whole list's outcome |
| ArenaLive.BlockSame | crates/mojito-checked/src/checked.rs:3991-3997 | In structured code, running only live prefixes in every nested block, loop, handler and scope has the same outcome for every state and any meaning of the rest |
| CallBinding.MatchCallSlots | crates/mojito-ast/src/call.rs:202-265 | Ok gives a legal binding; an error is one the call has; with distinct parameter names it is Ok exactly when a legal binding exists |
| CallBinding.LegalBindingIsUnique | crates/mojito-ast/src/call.rs:202-265 | A call has at most one legal binding |
| CallBinding.EachArgumentPlacedOnce | crates/mojito-ast/src/call.rs:226-264 | Every positional and keyword index is in exactly one of slots and overflow |
| CallBinding.RefusedHasNoBinding | crates/mojito-ast/src/call.rs:214-258 | No refusal's reason is compatible with a legal binding |
| CallBinding.SpreadBindsAlone | crates/mojito-ast/src/call.rs:165-186 | A trailing spread binds exactly when a collector exists and the other positionals fill the positional slots |
| CallBinding.ForwardBindsAlone | crates/mojito-ast/src/call.rs:188-199 | A forwarded `**kwargs` binds exactly when every keyword names a parameter |
| CallBinding.KeywordOrderIsIrrelevant | crates/mojito-ast/src/call.rs:226-264 | Permuting the keywords keeps a binding legal, gives each parameter the same argument, and overflows the same keywords |
| BracketBinding.MatchParameterSlots | crates/mojito-ast/src/call.rs:336-381 | Ok exactly when a legal binding of the bracket list exists, and then it is that binding; each error names what is wrong |
| BracketBinding.LegalIsUnique | crates/mojito-ast/src/call.rs:336-381 | A bracket list has at most one legal binding |
| BracketBinding.BoundOnce | crates/mojito-ast/src/call.rs:336-381 | Each argument binds one parameter, a non-pack parameter at most once, an infer-only one only by keyword |
| BracketBinding.KeywordPlaceIsIrrelevant | crates/mojito-ast/src/call.rs:336-381 | Moving keywords among the positionals changes neither success nor what any argument binds |
| BracketBinding.BracketUnboundSlots | crates/mojito-ast/src/call.rs:436-477 | Succeeds exactly when no `...` is misplaced and the rest binds, and gives the holes, the slots a trailing `...` opens and the arguments kept |
| BracketBinding.MarkersPartition | crates/mojito-ast/src/call.rs:411-477 | With a trailing `...` every parameter not infer-only is filled or open, and kept arguments and holes partition the listed ones |
| SyntaxIds.MeaningIsInjective | crates/mojito-common/src/token.rs:33-46 | Distinct identities handed out never stand for the same derivation |
| SyntaxIds.MeaningIsStable | crates/mojito-common/src/token.rs:57-65 | Handing out more identities changes what no earlier one means |
| SyntaxIds.Derivations.Derive | crates/mojito-common/src/token.rs:37-46 | The same pair always gives the same identity, a new pair a new one, and it means that derivation |
| SyntaxIds.Derivations.Derivation | crates/mojito-common/src/token.rs:48-54 | Inverts `Derive` and answers for derived identities alone |
| Rekey.FreeId | crates/mojito-ast/src/ast.rs:2774-2781 | The search for a number ends at the least unused one from the counter on |
| Rekey.FreeName | crates/mojito-ast/src/ast.rs:3030-3037 | The search for a lambda name ends at the least unused suffix from the counter on |
| Rekey.RekeyingMakesUnique | crates/mojito-ast/src/ast.rs:2745-2782 | All identities are distinct and so are all lambda names; an occurrence keeps its own exactly when no earlier one ended with it, and so a repeat never does |
| Rekey.SecondRunChangesNothing | crates/mojito-ast/src/ast.rs:2745-2757 | The pass changes nothing exactly when nothing repeats, so a second run changes and records nothing |
| Rekey.UniqueIdentityLost | crates/mojito-ast/src/ast.rs:2774-2781 | A small untagged identity that occurs once, met after a repeat, can be replaced; the parser's are never small |
| Rekey.OriginIsExact | crates/mojito-ast/src/ast.rs:3428-3440 | The origin of an occurrence's identity is the one it had before exactly when it was re-keyed or is derived from no generated identity |
| RekeyBound.GeneratedWithinCount | crates/mojito-ast/src/ast.rs:2774-2781 | No generated number exceeds the number of occurrences visited, skips and lambda names included, so replacement identities stay clear of the tagged ones |
| RekeyBound.FirstMetIsRetained | crates/mojito-ast/src/ast.rs:2750-2753 | An identity that is derived or larger than the number of occurrences before it, as every parser identity is, is retained exactly where it is met first; likewise a lambda name that does not look generated |
| RekeyBound.WholeTreeIsUnique | crates/mojito-ast/src/ast.rs:2745-2757 | When what the pass skips carries no small numbers, the whole final tree is distinct exactly when the skipped labels are distinct and none is also a visited one in the input |
| RekeyBound.OriginsReachThroughDerivations | crates/mojito-ast/src/ast.rs:3428-3440 | For an occurrence that came in plain, or derived from a number larger than the count of occurrences, origins are right at every depth of derivation from its new identity |
| RekeyExact.GeneratedExactly | crates/mojito-ast/src/ast.rs:2774-2781 | When no lambda name repeats, the pass generates a number exactly when the repeats before it is first met, or in all, are at least as many as the numbers from 1 up to it not met by then |
| RekeyExact.RetainedExactly | crates/mojito-ast/src/ast.rs:2750-2753 | When no lambda name repeats, an occurrence is retained exactly where its label is met first and is no generated number |
| RekeyExact.OriginAtRoot | crates/mojito-ast/src/ast.rs:3428-3440 | An occurrence's origin is right exactly when it came in plain, or repeated, or derived from a number not generated |
| RekeyExact.OriginExactly | crates/mojito-ast/src/ast.rs:3428-3440 | When no lambda name repeats, that is a condition on the input alone |
| RekeyExact.EndsHolding | crates/mojito-ast/src/ast.rs:2767-2782 | When no lambda name repeats, the labels the pass leaves are those it met and the numbers it generates |
| RekeyExact.WholeTreeExactly | crates/mojito-ast/src/ast.rs:2745-2757 | When no visited lambda name repeats, the whole final tree is unique exactly when the skipped labels are distinct, none is also visited, and none is a generated number |
| Rekey.DerivedOriginWrong | crates/mojito-ast/src/ast.rs:3433-3440 | A kept derived identity whose parent number was generated is traced to the wrong node |
| RekeyPass.Pass.FreshId | crates/mojito-ast/src/ast.rs:2767-2782 | Keeps an unused identity, else searches, records the replaced one, and advances the counter |
| RekeyPass.Pass.FreshName | crates/mojito-ast/src/ast.rs:3027-3038 | Keeps an unused hidden name, else suffixes it with the shared counter |
| RekeyPass.Pass.Visit | crates/mojito-ast/src/ast.rs:2784-3040 | Updates exactly the identities and names under a node, in visiting order, a lambda's definition and name between its own identity and its body |
| RekeyTree.ShownAtPlace | crates/mojito-ast/src/ast.rs:2784-3040 | Every cell of the tree outside what is skipped is visited, at the place the text gives it: after those of the nodes around it and of everything to its left |
| RekeyTree.SlotAtPlace | crates/mojito-ast/src/ast.rs:2784-3040 | And nothing else is visited: each place is some such cell's |
| RekeyTree.TreeIsSplit | crates/mojito-ast/src/ast.rs:2784-3040 | Every cell of the tree is one visited or one under something skipped |
| RekeyTree.ShownIsSkipped | crates/mojito-ast/src/ast.rs:3135-3140 | What a cell under something skipped holds is among the labels the pass leaves out |
| RekeyPass.RekeySyntax | crates/mojito-ast/src/ast.rs:3410-3418 | In place, no two cells of the tree outside what is skipped are left with the same identity or name; each keeps its own exactly when no cell before it in the text ends with it; the skipped ones stay; the records are the law's, and the whole tree is unique under the conditions of `WholeTreeIsUnique` and `WholeTreeExactly` |
| RekeyBound.SkippedStaysDuplicate | crates/mojito-ast/src/ast.rs:2745-2757 | For every identity: visited once and skipped once, it is left in both places and the whole tree is not unique |
| RekeyPass.WithSkipped | crates/mojito-ast/src/ast.rs:3135-3140 | For every identity there is a program, owned as trees are, that holds it once where the pass goes and once in a parameter's origin |
| RekeyPass.RekeyWithSkipped | crates/mojito-ast/src/ast.rs:3410-3418 | After the pass has run on that program both places still hold the identity, so its labels are not all distinct |
| Roadmap.WalkListsReachable | scripts/roadmap.py:105-125 | On any graph, cyclic ones included, the walk ends and lists exactly the entries reachable from the roots, each once |
| Roadmap.WalkIsTopological | scripts/roadmap.py:105-125 | On an acyclic graph each entry follows all its prerequisites |
| Roadmap.CyclesDecidesAcyclic | scripts/roadmap.py:209-227 | The cycle search finds nothing exactly when the graph is acyclic, and everything it reports is a genuine cycle |
| Roadmap.AcyclicIsRanked | scripts/roadmap.py:209-227 | An acyclic roadmap has a rank that falls along every prerequisite |
| Scheduler.EdgesArePrerequisites | scripts/roadmap.py:94-103 | With distinct IDs an entry's edges lead exactly to the other open entries it names, or, when it depends on its track, to those of the track that do not themselves |
| Scheduler.WorkOrderIsRight | scripts/roadmap.py:105-125 | The work order lists exactly the non-standing entries reachable from the roots; when acyclic each once, after all its non-standing prerequisites |
| Scheduler.WorkOrderListsOnce | scripts/roadmap.py:105-125 | Even on a cyclic roadmap no entry is listed twice |
| Scheduler.HeldBackMarksExactly | scripts/claude_loop.py:194-202 | On an acyclic roadmap one forward pass marks each open non-standing entry with exactly the troubled entries it reaches through open non-standing prerequisites |
| RoadmapPasses.Walker.Visit | scripts/roadmap.py:114-121 | The depth-first visit updates the visited set and the order as the walk's law says |
| RoadmapPasses.ListWorkOrder | scripts/roadmap.py:105-125 | Computes the work order under the roots |
| RoadmapPasses.FindCycles | scripts/roadmap.py:209-227 | Reports nothing exactly on an acyclic roadmap, and only genuine cycles |
| RoadmapPasses.MarkHeldBack | scripts/claude_loop.py:194-202 | Computes the marks the held-back law describes |
| RunLoop.FirstPendingIsFree | scripts/claude_loop.py:170-202 | Whatever the scope and range, the first pending entry has no open prerequisite that is not standing exactly when the run lists it after those it has |
| RunLaws.StepEnds | scripts/claude_loop.py:846-873 | Each start ends in just one way: given up when a session or the smoke check failed or the entry was left open with no new prerequisite, or split too often or under `--only`; finished when it left the roadmap; to be started again when it gained prerequisites |
| RunLaws.RunBooks | scripts/claude_loop.py:785-883 | At every point of a run the entries given up are those whose own turn failed, and those finished with are these and the ones whose own turn landed |
| RunLaws.GivenUpHoldsBack | scripts/claude_loop.py:785-883 | Once an entry's turn has failed, a run starts neither it again nor, standing entries apart, any entry that waits on it through open non-standing prerequisites, however the sessions rewrite the roadmap |
| RunLaws.PendingAre | scripts/claude_loop.py:194-202 | Of the entries listed, those pending are the ones neither finished with nor waiting on one given up |
| RunLaws.OrderServes | scripts/claude_loop.py:182-191 | A run lists just the non-standing entries the options ask for: all, those the entries of the track, or the tasks named, are or wait on, or the ones `--only` names |
| RunLaws.RunStartsAskedFor | scripts/claude_loop.py:785-883 | Every start of a run is of such an entry, and within the range |
| RunLaws.RunStartsFree | scripts/claude_loop.py:785-883 | However sessions rewrite the roadmap between turns, provided it stays acyclic and no entry whose own turn landed it is reopened, every start of a run is free of open non-standing prerequisites exactly when the run lists the entry after them |
| RunLoop.RangeHoldsPrerequisites | scripts/claude_loop.py:182-191 | Without `--only` an entry is listed after its open non-standing prerequisites exactly when the range, if any, leaves none of them out |
| RunLaws.RunNeverStartsWaiting | scripts/claude_loop.py:785-883 | A run without `--only` starts an entry free of open non-standing prerequisites exactly when its range holds them all, and always when it has no range |
| RunLaws.RunStartsBounded | scripts/claude_loop.py:846-873 | Whatever the sessions, scope and range, an entry is started at most `MAX_SPLITS + 1` times, each start a split or its last |
| RunLoop.OnlyStartsRegardless | scripts/claude_loop.py:185-186 | `--only` starts the entry it names, also when it has an open prerequisite that is not standing |
| RunLoop.RangeStartsRegardless | scripts/claude_loop.py:757-766 | A range of one entry starts it likewise |
| RunLoop.WaitingEntriesStart | scripts/claude_loop.py:182-191 | On a roadmap of two entries both options start the second while the first, which it depends on, is open |
| RunLoop.Runner.Inspect | scripts/claude_loop.py:793-841 | What a turn's sessions leave: the new open prerequisites of the entry, or a reason to give it up |
| RunLoop.Runner.Finish | scripts/claude_loop.py:793-873 | Judges a turn as landed, split or given up and updates the books accordingly |
| RunLoop.Runner.Drive | scripts/claude_loop.py:785-883 | The loop is a run, and ends with nothing pending or no session left |
| PackageCache.CachedIsComplete | src/package.rs:218-235 | In every interleaving with crashes and stale-lock removal, a package path is absent or holds one build's complete bytes for its header |
| PackageCache.ReturnedCarriesHeader | src/package.rs:264-276 | Whatever the cache held at first, every package returned carries, and goes on carrying, its caller's header |
| PackageCache.MappingNeverChanges | src/package.rs:203-210 | What a process has mapped never changes under it, though others replace and prune the file |
| PackageCache.OpenedIsReturned | src/package.rs:203-210 | A process that opens a published package returns it without building, whatever others do meanwhile |
| PackageCache.LockTakenAfterMiss | src/package.rs:202-218 | Conversely, a process that takes the lock had, at its last look, found the path absent or failed to open or read it |
| PackageReturns.BuiltIsReturned | src/package.rs:218-235 | A process that has built, does not crash, and whose import succeeds comes to rest within seven steps of its own, having returned what it built, however its write, rename, removal and unlock come out and whatever others do |
| PackageReturns.BuilderReturns | src/package.rs:213-257 | A process about to build, under the lock or with no usable cache, whose build and import succeed comes to rest within eight, or two, of its steps, having returned a build for its header |
| PackageReturns.FailsByItsOwn | src/package.rs:220-257 | A load fails only when its own build or its own import did, and then does nothing but remove its lock |
| PackageReturns.WaiterTakesOver | src/package.rs:202-248 | A waiter looks again: with the lock gone it returns the package there is when the header check lets it through, and takes the lock when not |
| PackageCache.LockExcludes | src/package.rs:213-236 | Until a lock is removed under a process still at work, at most one process is between creating and removing it, crashes and removal of their locks included; with no lock left behind either, there is a lock exactly when there is such a process |
| PackageCache.RobbingBreaksExclusion | src/package.rs:237-248 | Clearing a lock under a process at work lets the clearer work beside it three steps later |
| PackageCache.PublishedIsBuiltAgain | src/package.rs:213-221 | A process that missed and finds the lock free builds, whatever the path holds by then |
| PackageCache.BuiltTwiceUndisturbed | src/package.rs:187-236 | From an empty cache, with no crash and no lock cleared, a published package is built again |
| PackageCache.QuietDirectoryIsSound | src/package.rs:190-201 | A directory no process is at work on, with whatever locks a crash left, meets the laws' starting conditions on locks and files; that on packages exactly when each is a whole one of the builds made so far |
| PackagePrune.Prune | src/package.rs:517-539 | Removes a package exactly when it is another one's and at least three others are newer, by time and then path |
| Timing.Report | crates/mojito-common/src/timing.rs:97-166 | The imperative fold is the fold of the laws; an exit without an enter is its failure |
| TimingLaws.ExitAdds | crates/mojito-common/src/timing.rs:234-246 | Closing a span loses nothing and counts nothing twice: what its path's cells gain they no longer await, and its time is awaited by the span around it |
| TimingLaws.ReportIsSpent | crates/mojito-common/src/timing.rs:95-151 | Each path's inclusive time, self time and count are the sums over its spans of the time to the span's own exit, that time less its direct children's, and one |
| TimingLaws.ReportsWhenBalanced | crates/mojito-common/src/timing.rs:236-237 | There is a report exactly when no prefix of the log has more exits than enters |
| TimingLaws.NeverClips | crates/mojito-common/src/timing.rs:241-245 | On monotone times a span's children never exceed it, each floored on its own |
| TimingLaws.SelfWithinInclusive | crates/mojito-common/src/timing.rs:238-242 | A path's self time is at most its inclusive time |
| TimingLaws.SelfTimesConserved | crates/mojito-common/src/timing.rs:95-160 | On monotone times the self times over all lines add up exactly to the top-level spans' inclusive microseconds |
| TimingLaws.LinesByFirstEntry | crates/mojito-common/src/timing.rs:120-123 | One line for each path entered, by first entry |
| TimingLaws.CountersAddUp | crates/mojito-common/src/timing.rs:135-146 | A counter's total is the sum of the counts made under its path |
| TimingPaths.ReportIsDotted | crates/mojito-common/src/timing.rs:97-166 | A report's lines are, by first entry, the names of the spans open when one is entered, joined by dots, rounds in brackets; its counters likewise by first count; its notes are all those made, in order, each under the span it was made in |
| TimingPaths.RoundsApart | crates/mojito-common/src/timing.rs:112-116 | Two rounds of a span in one place, or a round and none, are two lines |
| Aliases.DisplayBindings | crates/mojito-ast/src/visit.rs:718-791 | Whatever order aliases come in, a name is bound to a display exactly when its chain of once-bound names ends at one once bound to that display |
| Aliases.Resolve | crates/mojito-ast/src/visit.rs:783-789 | The loop ends, keeps what it knows sound and complete, and leaves no alias of a display found |
| Aliases.LeadsToOne | crates/mojito-ast/src/visit.rs:710-717 | A name stands for at most one display |
| Aliases.OnceIsAlone | crates/mojito-ast/src/visit.rs:718-791 | A statement is the one binding of its name exactly when no other statement has that name and no scope does, whatever stars its names carry |
| Aliases.ScopedLeadsNowhere | crates/mojito-ast/src/visit.rs:760-791 | A name a scope binds, or a statement that is no plain binding, stands for no display, however else it is bound |
| Aliases.CyclesStayUnresolved | crates/mojito-ast/src/visit.rs:782-789 | Aliases of each other alone stay unresolved |

## Left out

- Integer widths: `u32` node identities, `u64` counters and `usize` lengths are unbounded here, so their overflow is not modelled (the rekeying counter cannot exceed the count of occurrences by more than one); nor are the bits that tell plain, fresh and derived identities apart.
- Ownership, loan, drop, MIR, monomorphisation, parsing, lexing and checking are not part of this model: what the visible code decides there is driver plumbing.
- Fact store access: dereferencing to the plain collection, `into_inner`, `mark` and `logged` only read or consume fields; a place handed out by `entry` or `get_mut` is what its caller leaves in it.
- FactStoreClasses.FactMap.Retain: the closure is a function of the key and the value; one with state of its own is covered by the laws on scripts, where what it keeps is arbitrary.
- Arena payloads: types, origins and adjustments at a node are one opaque attribute copied unchanged, and operations are shapes over a flat list of operands in the order they are mapped.
- ArenaExtract.Extract: with a struct shell or a wrapper body the declarations are partial by design and are not modelled; nor is a reference to a node that is not stored, which the source copies as it stands.
- Shared nodes: extraction copies a node once for each way it is reached, as the source does; that the checker's own arenas share none is not claimed.
- ArenaReach.CopiedOnceNamesItsOwn: a trait member is copied under its trait too, where the pass does not go; for such statements the condition is that the pass comes to them once.
- ArenaLive.BlockSame: runs are cut off at a number of nested steps, any number; a run that never ends is known by its cut-off prefixes only.
- CallBinding.MatchCallSlots: that no legal binding is refused is stated for distinct parameter names, which a declaration's are; soundness and the reasons need no such condition.
- SyntaxIds.Derivations.Derive: the parent is an identity the table or the parser handed out, not a forged tagged number.
- RekeyExact.GeneratedExactly: when lambda names repeat, their search uses up numbers of the same counter, and which are generated is known only up to the bounds of `GeneratedWithinCount`.
- RekeyPass.Pass.Visit: a node's parts are one list in visiting order, so which field of which construct comes first is not told apart.
- Scheduler.WorkOrderIsRight: IDs are taken to be distinct, which the roadmap's lint demands; with a repeated ID the entry a name stands for is not the source's choice.
- RunLaws.RunStartsFree: execute mode only; that sessions keep the roadmap acyclic and reopen no entry whose own turn landed it is assumed at every turn, since the loop does not check it.
- RunLoop.Runner.Drive: sessions, plan files, smoke runs and repairs are what each turn's record says; `--count`, a reached `--until`, an outage or repeated quick failures end the source's loop early, which here is the list of turns ending. What a split adds to the range is given by the turn.
- Scheduler and session plumbing: Markdown parsing, Git, prompts, network waits and commit handling.
- PackageCache.LockExcludes: whether a lock looks stale is a free choice at each look, so the five-minute limit and the clock are not modelled; the contents and encoding of packages are the header and the build they came from, and process identifiers of live processes are distinct.
- PackageReturns.WaiterTakesOver: that a lock is ever removed, and so that a waiting process ever gets a package, is not claimed.
- PackagePrune.Prune: run by itself on one listing; in the interleavings it may remove any other package's path.
- Timing output: rendering of lines, notes' text, the switch and the thread-local log; a second report after one that drained open spans fails in the source as an exit without an enter does here.
- Aliases.DisplayBindings: the walk that meets statements and scopes is a list of what it meets.
- Finite tables and messages: dtype and operator tables, error texts, command lines and the native toolchain.
