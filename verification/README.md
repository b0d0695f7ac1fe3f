# Kakehashi: a model of its stateful cores in Dafny

Kakehashi is a language server that installs Tree-sitter parsers and queries, caches
semantic tokens, folds layered configuration and prints diagnostics. This project models
the parts of it whose correctness depends on several steps fitting together, in the form the
code has (classes and methods with loops where the code mutates, functions where it
computes), and proves what each part promises over all inputs, all runs or all
interleavings.

| Files | What they model |
|---|---|
| `LanguageSlot`, `Protocol`, `ProtocolInvariant`, `ProtocolPairs`, `ProtocolOrder` | Installs and uninstalls as a concurrent protocol: any number of runs over one data directory, any outcome for every I/O step |
| `Staging`, `Install`, `Uninstall` | The staging walk over the inheritance graph, and the same transaction and the uninstall loop as sequential code over the data directory, exit by exit |
| `SemanticCache`, `SemanticCacheHistory`, `InjectionCache` | The delta-baseline LRU with its two limits and fast path, against an unbounded history; the content-addressed injection cache with its two-step store; the hash fold |
| `OffsetCalculator` | Row and column offsets over UTF-8 text (section 3 of RFC 3629), against the table of all line starts |
| `BaseChain`, `ConfigInheritance` | `base` chains of language settings, resolving and stripping |
| `PathText`, `Expansion`, `PathAnchoring`, `AnchoredExpansion`, `AnchoringLaws`, `PathSettings` | Anchoring path settings before `$` expansion |
| `UnknownKeys`, `TerminalText`, `OneLine`, `Jsonl`, `Files` | The one-edit typo test, the one-line renderer, the JSON post-escaper (sections 7 and 8 of RFC 8259), and file collection |

How the protocol is modelled: a state is the disk (one slot per language: live queries,
parser entry, tombstone, backups by run) and the program point of every run. An event is one
critical section of one run together with the outcome of its I/O, so a fault of any kind at
any step is one more event. Every function in `LanguageSlot` is one such critical section,
and both the state machine and the sequential classes use it. The bodies of
`src/install/queries.rs` and `src/install/parser.rs` are modelled, not only what their call
sites say of them.

## What the proofs found

- A run always holds the lock of every language it publishes or rolls back
  (`ProtocolInvariant.PublishAndRollbackAreExclusive`). The comment at
  `src/install.rs:436-441`, which speaks of a child's install publishing this language's
  queries while holding only its own lock, and the known gap described at
  `src/install/queries.rs:932-937`, both describe something the lock over all staged languages
  already rules out for runs that take it.
- A failure that reports no residue leaves the parser and the queries of the requested language
  as they were before the run (staging clears its tombstone, and a failure does not put it back),
  with two exact exceptions: on Windows a forced install's parser swap can lose the old parser, and
  staging can bring back queries that an earlier run stranded.
  `Installer.DataDirectory.InstallLanguage` states both as if-and-only-ifs over the disk found
  and the outcomes of the steps; `WindowsSwapLosesParser` and `StagingBringsQueriesBack` are the
  cases.
- Stripping inherited settings is not undone for some circular `base` chains.
  `ConfigInheritance.StrippingIsUndoneUnlessLost` gives the exact condition, language by
  language; `LoopLosesItsOnlyValue` is the smallest case.
- Lexical cleaning reaches into `${...}`: a name with `//` or `/./` in it is changed by
  anchoring, and the expansion pass then asks for another variable.
  `AnchoringLaws.ExpansionOfAnchored` and `ReferencesSurviveIffTight` give the exact
  condition, `BracedNameIsChanged` a case.

## Model

| member | source | states |
|---|---|---|
| ProtocolInvariant.ParserNeverWithoutQueries | src/install.rs:397-495 | In every interleaving from a paired disk, whenever a language's lock is free, a present parser has its queries beside it, unless some run reports stranded queries in a chain with that very language, or its parser as one it failed to remove |
| ProtocolPairs.NoMixedPair | src/install.rs:428-442 | From a clean directory, a free language of which no run reports a residue (its own parser or queries, or queries stranded in a chain with it) never has one install's parser beside another install's queries, and a present parser always has complete queries |
| ProtocolOrder.UninstallSupersedesStagedInstall | src/install.rs:350-417 | An install that staged a language before an uninstall of it and takes its locks afterwards publishes nothing, before or after, as long as no other run's staging clears the tombstone |
| ProtocolOrder.NeverDeadlocks | src/install/queries.rs:2046-2058 | Because locks are taken in sorted order, in every reachable state with an unfinished run some unfinished run can take a step that is not giving up |
| ProtocolInvariant.CommittedInstallIsWhole | src/install.rs:428-510 | A commit leaves the parser and every language of the chain complete, each inheriting only languages of the chain |
| ProtocolInvariant.PublishAndRollbackAreExclusive | src/install/queries.rs:917-938 | Publishing and rolling back happen under the language's own lock, and a rollback only ever finds the copy its own run published |
| ProtocolInvariant.EventKeepsInv | src/install.rs:397-510 | Every step of every run keeps the protocol invariant: exclusive locks, named backups, what a run knows of the slots it holds, and paired slots |
| ProtocolPairs.EventKeepsPairs | src/install.rs:428-442 | Every step keeps parser and queries of one writer together, through publishing, undoing, recovery and removal |
| ProtocolOrder.EventKeepsOrder | src/install/queries.rs:2046-2058 | Every step keeps the locks a run holds below the locks it still wants |
| ProtocolOrder.SupersededThroughout | src/install.rs:404-417 | Once a tombstone stands and nobody else clears it, the superseded install stays unpublished at every later step |
| LanguageSlot.PublishThenUndoIsIdentity | src/install/queries.rs:939-1005 | Publishing and undoing gives the very slot back, or reports new queries live, or the old ones stranded in this run's backup, and each report is true of the disk |
| LanguageSlot.UnpublishedLeavesSlot | src/install/queries.rs:2251-2330 | A publish that does not publish leaves the slot alone, or strands the live copy in this run's backup; yielding needs a complete copy and no force; publishing needs no tombstone |
| Installer.DataDirectory.InstallLanguage | src/install.rs:313-510 | For every combination of outcomes, run alone: which two errors it ends with, as a function of the disk it finds and the outcomes of its steps; it succeeds iff staging has a set of languages to go through within which every download can be published, the locks and the compile work where needed, and the parser can be swapped in or is there. Success leaves exactly the copies the walk went by, the parser where it was needed, and every other language's queries as they were. A failure changes the requested parser iff a forced install reaches a Windows swap that loses it; without residue it changes the requested queries iff staging recovered a stranded copy. Other languages' parsers never change |
| Installer.DataDirectory.PublishBoth | src/install.rs:428-510 | The transaction under its locks succeeds iff every entry settles and the parser can be published or is there; then its copies are live but where it yielded to a complete one. Otherwise its error, parser, queries and residue are exactly as reported, but for the parser a Windows swap lost |
| Installer.DataDirectory.PublishAll | src/install/queries.rs:799-884 | It goes through iff every staged entry either can be published or finds a complete copy it may yield to that inherits nothing new; exactly the entries that do not yield are published. Otherwise all published so far is undone and the stranded language is the one reported |
| Installer.DataDirectory.Rollback | src/install/queries.rs:939-1005 | The requested language is un-published as reported, inherited languages keep the new copies, and no parser or tombstone moves |
| Installer.DataDirectory.Commit | src/install/queries.rs:903-915 | Committing drops this run's backup of each published language, unless that fails, and changes nothing else |
| Installer.DataDirectory.SettleParser | src/install.rs:470-495 | Succeeds iff the staged parser can be swapped in over anything but a directory, or the one found is still there; a failure changes the slot iff a Windows swap lost the displaced file |
| Installer.DataDirectory.FinishInstall | src/install.rs:470-510 | After the queries: success iff the parser step succeeds, and then the queries stay as published; otherwise rollback, with the residue the disk shows and the parser lost exactly in the one Windows case |
| Installer.DataDirectory.StageQueries | src/install/queries.rs:1126-1182 | On the directory, staging succeeds iff some set of languages can be gone through, and hands over the least one, stable under the recheck; it does its visits and no more: no language twice, the requested one first |
| Installer.FailedPublishIsHonest | src/install.rs:240-248 | A failed publish of queries reports stranded queries iff some language's live copy is gone from its place, and otherwise left parsers and the requested queries alone |
| Installer.FailedParserIsHonest | src/install.rs:470-495 | A failed parser step ends with a residue that is true of the disk |
| Staging.VisitsOnlyRecover | src/install/queries.rs:1817-1860 | Whatever staging visits, no parser and no live query copy changes, except that a missing copy may be a complete stranded one again |
| Staging.VisitsChangeQueriesIff | src/install/queries.rs:1817-1860 | Staging changes a language's live queries iff recovery finds a complete stranded copy and nothing live |
| Staging.StageChain | src/install/queries.rs:1126-1182 | Staging succeeds iff some set holding the requested language is closed under what its languages inherit and every step of each goes through; what it hands over is the least such set, with a copy of this run for exactly the languages to download. No language is visited twice, the requested copy comes last, and bases come before what inherits them unless inheritance has a cycle |
| Staging.StageLanguage | src/install/queries.rs:1224-1380 | The recursion terminates on every inheritance graph, succeeds inside every closed set whose steps all go through, and keeps what the walk has settled true around the languages still being walked, whichever step fails |
| Installer.WindowsSwapLosesParser | src/install/parser.rs:300-353 | The lost parser: publish, failed swap, clean undo, no residue, and the parser that was there is gone |
| Installer.StagingBringsQueriesBack | src/install/queries.rs:1817-1860 | The recovered copy: no live queries before, the stranded ones after |
| Installer.RequestedRecovers | src/install/queries.rs:1224-1262 | Staging changes the requested language's queries iff its visit finds nothing live and a complete stranded copy |
| Installer.LeastChainDecides | src/install/queries.rs:1126-1182 | Whether an install alone can publish depends only on the downloads of the least set staging goes through |
| Installer.SettlesAlone | src/install/queries.rs:799-884 | With nothing else running no entry yields and no dependency carries a tombstone, so all entries settle iff every download can be published |
| Installer.ChainIsLeft | src/install.rs:428-510 | An install alone leaves every language of the chain with the copy the walk went by, and all others with the queries they had |
| Installer.ChainPublished | src/install/queries.rs:737-789 | Publishing everything staged and having rechecked everything skipped puts the whole inheritance chain on disk |
| Uninstaller.NeverHalfRemoves | src/bin/main.rs:861-1013 | An uninstall makes a language parser-only iff every step up to the parser goes through and unlinking the parser fails, and then it reports a failure and a removal |
| Uninstaller.SuccessMeansGone | src/bin/main.rs:861-1013 | A clean uninstall leaves no queries, backups or parser, leaves the tombstone, and says "removed" iff something was there |
| Uninstaller.UninstallLanguages | src/bin/main.rs:861-1013 | The loop does exactly this to each named language and nothing to others; its flags and lists hold exactly the languages they should |
| SemanticCacheHistory.RetainsLongestRecentSuffix | src/analysis/semantic_cache.rs:89-160 | With fresh ids the retained baselines are the unbounded recency list, trimmed |
| SemanticCacheHistory.TrimIsLongestFit | src/analysis/semantic_cache.rs:124-137 | Trimming keeps the longest suffix of at least one entry that fits both limits |
| SemanticCacheHistory.AnswerIsPlainLookup | src/analysis/semantic_cache.rs:223-238 | In every reachable state the fast path answers what a plain lookup in the baselines would |
| SemanticCacheHistory.AnswerIsLastStored | src/analysis/semantic_cache.rs:89-109 | Any answer is the value last stored under that document and id since the last remove or clear |
| SemanticCacheHistory.NewestAlwaysAnswered | src/analysis/semantic_cache.rs:111-138 | The value just stored is answered, however large |
| SemanticCacheHistory.TouchCommutesWithTrim | src/analysis/semantic_cache.rs:144-160 | Making a retained entry recent and trimming commute |
| SemanticCache.InsertStep | src/analysis/semantic_cache.rs:111-123 | Inserting keeps the order a duplicate-free listing of the map and the byte count the exact sum |
| SemanticCache.EvictStep | src/analysis/semantic_cache.rs:124-137 | Evicting the oldest entry takes exactly its bytes off |
| SemanticCache.RetainedAt | src/analysis/semantic_cache.rs:144-160 | Removing from the deque by position and by value agree |
| SemanticCache.SemanticTokenCache.Store | src/analysis/semantic_cache.rs:89-109 | Storing is the abstract store on one document, keeps the invariant, and no byte subtraction saturates |
| SemanticCache.SemanticTokenCache.GetIfValid | src/analysis/semantic_cache.rs:223-238 | With nothing in between, a read gives the abstract answer, and only a read past the current entry makes a baseline recent |
| SemanticCache.SemanticTokenCache.FastPath | src/analysis/semantic_cache.rs:224-231 | The first guard: answered by the current entry alone, and nothing changes |
| SemanticCache.SemanticTokenCache.Fallback | src/analysis/semantic_cache.rs:232-237 | The second guard: the baselines answer, whatever is current by then, and what they find becomes the most recent |
| SemanticCacheHistory.InterleavedReadIsLastStored | src/analysis/semantic_cache.rs:223-238 | Whatever happens between the two guards of a read, its answer is a plain lookup in the baselines at the guard that answers, and the value last stored by then |
| SemanticCacheHistory.ReadsDoNotDisturbReads | src/analysis/semantic_cache.rs:223-238 | Other reads between the two guards do not change the answer |
| SemanticCache.SemanticTokenCache.Remove | src/analysis/semantic_cache.rs:241-243 | Removing forgets one document |
| InjectionCache.HitIsLastStored | src/analysis/semantic_cache.rs:504-603 | Under every interleaving of two-step stores, reads, sweeps and clears, a read hits iff the tokens last written under document and hash have its generation, and returns them |
| InjectionCache.NeverAnEmptyDocument | src/analysis/semantic_cache.rs:580-589 | No reachable state holds an empty per-document map |
| InjectionCache.InjectionTokenCache.RetainDocument | src/analysis/semantic_cache.rs:580-589 | A sweep keeps precisely the live hashes of one document and drops an emptied one |
| InjectionCache.InjectionTokenCache.Store | src/analysis/semantic_cache.rs:509-536 | The two-step store inserts one region and changes nothing else |
| InjectionCache.FoldAddsNoCollisions | src/analysis/semantic_cache.rs:483-485 | The fold is injective in the content hash, and two languages collide iff their own hashes do |
| InjectionCache.PrimeIsInvertible | src/analysis/semantic_cache.rs:483-485 | Multiplying by the FNV prime modulo 2^64 loses nothing |
| InjectionCache.HashFitsWord | src/analysis/semantic_cache.rs:483-485 | The key is a 64-bit word |
| OffsetCalculator.ApplyOffsetToPosition | src/analysis/offset_calculator.rs:83-134 | The local line walk gives what the table of all line starts gives, for every row offset, overshoot and mid-character position, and never slices inside a character |
| OffsetCalculator.CalculateEffectiveRange | src/analysis/offset_calculator.rs:36-74 | The result is the largest character-aligned range inside the clamped raw range, or an empty aligned one when there is none |
| OffsetCalculator.TableListsLineStarts | src/analysis/offset_calculator.rs:76-82 | The table lists, in order, position 0 and every position after a newline |
| OffsetCalculator.BoundariesEndPrefixes | src/analysis/offset_calculator.rs:95-104 | In encoded text an index is a boundary iff whole characters come before it |
| OffsetCalculator.SnappedIsLargest | src/analysis/offset_calculator.rs:60-73 | Snapping both ends inward gives the largest sliceable range, or none exists |
| ConfigInheritance.StrippingIsUndone | src/config.rs:97-173 | Without a circular chain, resolving, stripping and resolving again gives every language's settings back, through self-references, missing bases and `_` |
| ConfigInheritance.StrippingIsUndoneUnlessLost | src/config.rs:138-145 | In any map, a language comes back iff none of its settings is lost in a loop whose languages set it to one thing |
| ConfigInheritance.LoopLosesItsOnlyValue | src/config.rs:138-145 | Two languages based on each other lose the one parser they set |
| ConfigInheritance.FoldIsMostSpecific | src/config/merge.rs:204-222 | Folding a chain gives every setting its most specific explicit value |
| ConfigInheritance.DecisionIsMostSpecific | src/config.rs:418-431 | Configured or not, a language's auto-install answer is the most specific value along its chain, else the top-level one |
| ConfigInheritance.DecisionSurvivesStripping | src/config.rs:363-371 | Stripping and resolving again changes no auto-install answer |
| BaseChain.BuildBaseChain | src/config/merge.rs:231-270 | The walk returns the chain and warns iff the chain does not reach a root |
| BaseChain.ValueStep | src/config/merge.rs:231-270 | A language has its own value or what the next one resolves to, even where the chain comes back to it |
| BaseChain.RestoredUnlessLost | src/config.rs:97-173 | For one setting: what stripping keeps resolves to the same value, or the value is lost and then gone |
| BaseChain.TerminatingIsNotLost | src/config/merge.rs:195-199 | Nothing is lost on a chain that reaches a root |
| AnchoringLaws.ExpansionOfAnchored | src/config/paths.rs:148-231 | For a value that does not carry its own base: in every environment expanding the anchored value finds the expanded value under the base's literal name, up to cleaning, and fails iff expanding the value fails, on the same name - if and only if no braced name of the value has `//` or `/./` |
| AnchoringLaws.ExpansionOfSqueezed | src/config/paths.rs:148-231 | For every such value: the anchored value expands to what the value does under the base once its braced names have been cleaned like paths |
| AnchoringLaws.ReferencesSurviveIffTight | src/config/paths.rs:193-217 | Anchoring keeps exactly the value's references iff no braced name has `//` or `/./`, or the value carries its own base |
| AnchoringLaws.ReferencesOfAnchored | src/config/paths.rs:181-216 | Anchoring adds no reference and folds none away; braced names are cleaned like paths |
| AnchoringLaws.BracedNameIsChanged | src/config/paths.rs:193-216 | `x${a//b}` comes to refer to `a/b` |
| AnchoringLaws.AnchorIsRead | src/config/paths.rs:181-216 | How the expansion pass reads an anchored value, token by token |
| AnchoringLaws.AnchorOfPlain | src/config/paths.rs:181-216 | A value without references lands, escaped, at its cleaned place under the base |
| AnchoringLaws.AnchoringIsIdempotent | src/config/paths.rs:134-138 | Anchoring again under any base changes nothing |
| AnchoredExpansion.ComponentsOfValue | src/config/paths.rs:206-216 | Dropping path components from raw text drops exactly the empty and dot pieces between references and squeezes braced names |
| Expansion.ParseIsFaithful | src/config/expand.rs:127-156 | Reading a value into tokens loses no character |
| Expansion.PrintIsFaithful | src/config/expand.rs:127-156 | Well-formed tokens are read back from their text |
| Expansion.ExpandedByReferences | src/config/expand.rs:115-120 | Expansion fails on the first undefined name and otherwise replaces every reference |
| PathText.FoldPrefix | src/config/paths.rs:193-216 | Folding `..` in a prefix early does not change the outcome |
| PathAnchoring.SqueezeIffTight | src/config/paths.rs:193-216 | Cleaning leaves a name alone iff nothing between its slashes is empty or a dot |
| PathSettings.RawSettings.AnchorSettingsPaths | src/config/paths.rs:148-231 | Every path field is anchored in place, nothing else changes, and without a base nothing does |
| PathSettings.LayerAnchoredOnce | src/config/paths.rs:134-138 | A layer anchored once is left alone by every later anchoring |
| UnknownKeys.IsOneEditApart | src/config/unknown_keys.rs:122-160 | The scan says yes iff the Levenshtein distance of the byte strings is exactly 1 |
| UnknownKeys.IsKeyOrTypo | src/config/unknown_keys.rs:108-120 | Yes iff the distance to some known key is at most 1 |
| UnknownKeys.IsWorkspaceSettingKeyOrTypo | src/config/unknown_keys.rs:108-113 | The same for the workspace setting keys |
| UnknownKeys.IsFeatureSettingKeyOrTypo | src/config/unknown_keys.rs:115-120 | The same for the feature setting keys |
| UnknownKeys.OneInsertionIsDistance | src/config/unknown_keys.rs:138-159 | The greedy scan over words one byte apart decides distance 1 |
| UnknownKeys.OneMismatch | src/config/unknown_keys.rs:130-137 | Between words of one length, one mismatch is distance 1 |
| UnknownKeys.DistanceSymmetric | src/config/unknown_keys.rs:138-142 | Which word is shorter does not matter |
| OneLine.OneLine | src/cli/diagnose.rs:506-543 | Gives the words, escaped, joined by single spaces, and borrows iff that is the input |
| OneLine.RenderedIsClean | src/cli/diagnose.rs:506-543 | The output has no control or bidirectional character and no leading, trailing or doubled space |
| OneLine.RenderingIsIdempotent | src/cli/diagnose.rs:506-543 | Rendering twice is rendering once |
| OneLine.CleanRendersItself | src/cli/diagnose.rs:507-523 | Text the validation pass accepts is rendered as it is |
| OneLine.Rewrite | src/cli/diagnose.rs:524-542 | The rewriting pass with its pending space produces that rendering |
| Jsonl.PostEscapingLosesNothing | src/cli/diagnose.rs:545-563 | A post-escaped record decodes to the same fields and holds no character of the escape class |
| Jsonl.EscapingKeepsTokens | src/cli/diagnose.rs:545-563 | For any JSON text that decodes, escaping keeps the decoded value iff every character it rewrites stands inside a string |
| Jsonl.NothingLeftToEscape | src/cli/diagnose.rs:545-563 | No character of the class is left in the output |
| Jsonl.EscapeTerminalControls | src/cli/diagnose.rs:545-563 | The one pass, and the early exit, both give the escaped text |
| Files.DirectoryOrderDoesNotMatter | src/cli/files.rs:92-134 | The result is the same for every order in which directories are read |
| Files.ExactlyTheFirstSpellings | src/cli/files.rs:136-160 | The sorted result lists once exactly each spelling that is first in argument order and smallest within its argument, and every unreadable one |
| Files.EveryFileIsListedOnce | src/cli/files.rs:136-160 | Every file an argument reaches is listed, a readable one under exactly one spelling and an unreadable one under its own |
| Files.OneSpellingPerFile | src/cli/files.rs:136-160 | Two listed spellings of one readable file are the same spelling |
| Files.CollectFiles | src/cli/files.rs:92-134 | The loops compute the collection, or report the first argument that cannot be used |
| Files.DedupAliases | src/cli/files.rs:154-160 | The pass keeps the first entry of every identity and all entries without one |

## Left out

- Downloads, compiling, real file systems and lock files: each I/O call has an arbitrary outcome; process kills end no run in the model.
- Parents that only a runtime search path provides (src/install/queries.rs:279-355, 1390-1415), and modelines found only on search paths: every inherited language is in the data directory or upstream here.
- Standalone `install_parser` (src/install/parser.rs), which takes the language lock, clears the tombstone and publishes a parser without queries, and standalone `install_queries`: `ParserNeverWithoutQueries` is about installs and uninstalls of languages and would not hold beside the former.
- Liveness of lock holders other than installs and uninstalls, and lock timeouts; `NeverDeadlocks` is about runs that follow the protocol.
- Dangling symbolic links as parser entries; a parser entry is a file, a directory or absent.
- The order of a language's parents, which the walk takes in any order; in the concurrent protocol, the order of entries within a chain, except that the requested language comes last.
- Staging.StageLanguage: the temporary directories a failed staging leaves are not part of the disk, and a download either brings a language's files or fails.
- Installer.DataDirectory.InstallLanguage: nothing else runs meanwhile; what other runs may do between staging and the locks is the subject of the protocol.
- Uninstaller.UninstallLanguages: discovery of languages for `--all` and the confirmation prompt; the list of languages is a parameter.
- Tokens' data is a number; documents, hashes and result ids are numbers. FNV-1a itself is abstract: only the fold over it is modelled.
- `get_if_current`, `get_if_same_snapshot`, the range cache and the injection map: plain lookups.
- Bridge, layers and aggregation maps of language settings: they merge deeply; the fields modelled are inherited whole.
- The iteration order of hash maps: resolving and stripping are functions of the map.
- PathAnchoring.Anchor: the base is an absolute Unix path; Windows prefixes, drive-relative values (so the returned list is always empty) and bases that are not UTF-8 are not modelled.
- Expansion.Parse: `shellexpand` is not part of this model; the grammar is the documented one, with ASCII variable names. What stands in braces is looked up whole, so a `:-` default is one more thing a lookup may understand. A leading `~` never reaches anchored values.
- PathSettings.RawSettings.AnchorSettingsPaths: languages are visited in no particular order, which nothing on Unix can observe.
- Gitignore matching, exclusion globs and the walk itself: an argument comes with the files it yields.
- Files.Leq: paths compare by components and names by character code.
- The serializer of JSON records is modelled for strings, numbers and null.
- Schema walks for unknown keys, exit-code tables, deprecation notices and default tables: they would only add easy members.
