# Model of fullsend's hard cores

A Dafny model of the parts of fullsend whose behaviour is hard to see from one function, and proofs
of what they promise. `dafny verify dfyconfig.toml` checks it.

| Modules | What they model |
|---|---|
| `GoText`, `ContentPart`, `SizeCuts`, `ToolArguments`, `Redaction`, `Collector`, `StreamEvents`, `RecordJSON` | the content collector: a size-bounded recorder of an agent's event stream, which redacts whole fields before it cuts anything off them; what each event adds, and reading the record back |
| `LockFields`, `LockReplaySpec`, `LockReplay`, `ReplayExact` | the lock replay: rewriting a harness from pinned dependencies, on the heap, through a working copy and in-place compaction; what it leaves, list by list |
| `LockAll`, `LockEntries` | `lock --all`: one pass over all agents that re-locks, prunes and saves once; what the entry of each agent holds |
| `Generate`, `GeneratedFiles` | generating an agent's files: classification, validation, the write loop and its undo log; what happens at each path |
| `VueEscape`, `VueDocument`, `VueFences` | the escaper that makes Markdown safe for Vue: the code-span matcher and the fence state machine; which lines are in a fence |
| `Markers`, `Sticky`, `StickyPosts`, `StickyBody`, `StickyHistory`, `StickyUpdates` | comment markers, the neutralizer, sticky comments on forges and on Jira, and the body of an updated comment, with history and without; what a run posts, and what is kept over any number of updates |
| `AppSetup` | creating, storing, installing and recovering a role's GitHub App over interrupted runs |
| `ProfileGraph` | adding a forge endpoint to a profile on a YAML node graph with aliases |
| `AgentConfig` | `agent add` and `agent remove`, and finding a branch whose name holds slashes |
| `PatchSelect`, `ModelId` | the newest patches of the newest minors; printing a gateway's model id |
| `Text`, `Wrappers` | substrings; `Option` and `Result` |

Code that changes things step by step is modelled by classes and methods with loops, each proved against
a function on values (`Settled`, `Replay`, `RunAll`, `Written`, `Esc`, `PostForge`, `Setup`, `Decide`, `Added`);
what the source promises is then proved of that function over all inputs, all runs or all histories, and what it
leaves is stated once more without it (`...Exactly`, `...IsNewest`, `...ReadsBack`, `FinalLock`, `SuccessWrites`).
What the outside decides (redaction, caches, allowlists, file-system faults, remote answers, time-outs) is a
parameter, so a lemma holds whatever it answers. Bytes are characters, and the byte-level lemmas hold for
every string, valid UTF-8 or not.

## Model

| member | source | states |
|---|---|---|
| GoText.TailToRuneBoundary | internal/cli/content_collector.go:1094-1103 | the loop computes `Tail`, the first cut point at or after `len - n` |
| GoText.TailIsLongest | internal/cli/content_collector.go:1092-1103 | that tail fits in `n` bytes, starts at a rune boundary, and no longer tail does both |
| GoText.TailEncodesToSuffix | internal/cli/content_collector.go:738-747 | runes encode independently: a tail from a cut point encodes to a suffix of the whole encoding, for invalid UTF-8 as well |
| GoText.EncodedTailMonotone | internal/cli/content_collector.go:738-747 | longer tails never encode shorter, which the binary search rests on |
| GoText.EncodedTailIsLongest | internal/cli/content_collector.go:738-747 | the binary search returns the longest tail from a rune boundary whose encoding fits, and nothing when none does |
| ContentPart.FootprintsAreExact | internal/cli/content_collector.go:296-318 | the two flag footprints, 16 and 26, are the lengths of the JSON members they stand for |
| ContentPart.CutSavesExactly | internal/cli/content_collector.go:707-723 | the exact number of encoded bytes a cut saves, with the marker charged only when it is new |
| ContentPart.DropSavesExactly | internal/cli/content_collector.go:724-728 | dropping the oldest of several parts saves its JSON and one comma |
| ContentPart.CutSuffixTransitive | internal/cli/content_collector.go:623-730 | the two cuts, one after the other, are one cut: an ordered suffix of which at most the oldest part is cut |
| SizeCuts.SuffixCut | internal/cli/content_collector.go:628-676 | the raw budget keeps the largest cut suffix of at most `maxBytes`; kept bytes plus dropped bytes are all bytes; truncated exactly when something was dropped |
| SizeCuts.LargestInBudgetIsUnique | internal/cli/content_collector.go:623-662 | "largest cut suffix within the budget" describes one list, so the loop keeps exactly that |
| SizeCuts.ShrinkEncoded | internal/cli/content_collector.go:707-730 | the cut on the encoded record keeps the largest cut suffix that is at least `over` bytes shorter, and charges exactly the raw bytes it lost |
| SizeCuts.LargestEncodedIsUnique | internal/cli/content_collector.go:700-730 | the same uniqueness for the encoded bound |
| Redaction.AccountFor | internal/cli/content_collector.go:513-566 | each step that was safe when taken keeps the ledger: findings are those of all scans, lost bytes those of all cuts |
| Redaction.AssembledIsExportable | internal/cli/content_collector.go:599-621 | what assembling makes of a held part is exportable of that part: every field redacted whole, an id with a finding gone |
| Redaction.CutIsExportable | internal/cli/content_collector.go:628-730 | and stays so when its bulk field is cut |
| Collector.EvictedHasBudgetBehind | internal/cli/content_collector.go:524-551 | eviction is not greedy: whatever it takes has at least a full budget of newer content behind it |
| Collector.SettledIsSmall | internal/cli/content_collector.go:552-566 | after eviction and pre-trim every held part but a tool call is at most twice the budget |
| Collector.CoalescedIsGood | internal/cli/content_collector.go:496-511 | text that joins a part clears its scanned flag, so the flag stays true of the whole field |
| Collector.ContentCollector.EvictOverflow | internal/cli/content_collector.go:524-566 | the loop leaves exactly the settled list, scans what it discards and charges every byte |
| ToolArguments.AllTextsMembers | internal/cli/content_collector.go:948-1021 | the texts scanned are those of every string, number and nested member of the input, listed or not |
| ToolArguments.RecordsExactlyListed | internal/cli/content_collector.go:906-1033 | the record holds exactly the listed scalar members of a listed tool, each as its redaction, and nothing else of the input |
| ToolArguments.RecordedIsRedacted | internal/cli/content_collector.go:906-1033 | every text in the record is a redaction of a scanned one, or digits that redaction left alone |
| Collector.ContentCollector.RecordMembers | internal/cli/content_collector.go:991-1021 | the walk over the members scans all their texts, keeps the ledgers and leaves exactly the recorded members |
| Collector.ContentCollector.ScanArguments | internal/cli/content_collector.go:948-1033 | arguments are scanned as text when they are no object and member by member when they are; what is too long or no object is dropped whole and charged |
| Collector.ContentCollector.Handle | internal/cli/content_collector.go:425-481 | one event leaves exactly the list `AfterEvent` gives, which `StreamEvents` states part by part, and keeps the running total, the byte and finding ledgers, redact-before-cut and the memory bound |
| Collector.ContentCollector.HandleAll | internal/cli/content_collector.go:421-566 | the same over every event sequence |
| StreamEvents.TextIsNewest | internal/cli/content_collector.go:425-431 | a delta joins the newest part of its kind, which must be scanned again, or becomes the newest part |
| StreamEvents.ToolUseIsNewest | internal/cli/content_collector.go:434-462 | a call becomes the newest part, with its name, its id unless too long, and what its input leaves; its summary is gone exactly when the scan of the input raised anything but a harmless normalization |
| StreamEvents.ToolResultIsNewest | internal/cli/content_collector.go:463-481 | a result becomes the newest part, its text whole or the tail of its redaction, with its flags; one with nothing to record changes nothing |
| Collector.RevealsExactly | internal/cli/content_collector.go:434-452 | the test over the findings, one by one, says whether any scanned text of the input raised one that could reveal something masked |
| Collector.ContentCollector.RetainedBytes | internal/cli/content_collector.go:513-566 | fewer than three budgets are held while no held tool call exceeds two |
| Collector.ContentCollector.AttachInput | internal/cli/content_collector.go:205-231 | a recorded prompt is redacted whole, or masked, and its encoded size is charged to the output's bound |
| Collector.ContentCollector.Result | internal/cli/content_collector.go:585-694 | output and recorded input together stay within 255,000 bytes; kept plus dropped bytes are all bytes ever lost or held; the kept parts are the largest suffix in both bounds; truncated exactly when something was dropped or a kept part is marked; all findings surface |
| Collector.RecordIsSafe | internal/cli/content_collector.go:513-694 | what the record encodes is one ordered suffix of the redacted parts, and each part comes from a held one whose fields were redacted whole before anything was cut off them, whose arguments are what a scanned input leaves, and which has a summary only when that scan revealed nothing |
| RecordJSON.ReadsText | internal/cli/content_collector.go:738-747 | a JSON reader gets back the text that was escaped, U+FFFD for bytes that are no UTF-8 |
| RecordJSON.SameTextExactly | internal/cli/content_collector.go:738-747 | and that is the text itself exactly when it was UTF-8 |
| RecordJSON.PrintsPart | internal/cli/content_collector.go:241-307 | a part's JSON is its members, under their keys and in their order, empty ones left out |
| RecordJSON.RecordReadsBack | internal/cli/content_collector.go:280-307 | reading the record gives every part back, in order, with its kind, texts, arguments and flags, and the reason it finished |
| RecordJSON.InputReadsBack | internal/cli/content_collector.go:205-231 | and a recorded prompt its one text |
| LockFields.FieldHoldsModuloFragment | internal/cli/lock.go:1407-1419 | a value holds a URL exactly when it is that URL without "#", or the URL, a last "#" and a fragment |
| LockFields.IsTransitiveSkillLockField | internal/cli/lock.go:1421-1443 | the digit loop decides the predicate |
| LockFields.TransitiveFieldIsExact | internal/cli/lock.go:1421-1443 | the test accepts exactly `skills[<parent>:dep<digits>]` with a non-empty parent |
| LockFields.OnlyTransitiveNamesAppend | internal/cli/lock.go:1240-1254 | only a name of that form ever appends a skill |
| LockFields.ScalarNames | internal/cli/lock.go:1130-1196 | which single names the switch maps to each scalar field |
| LockReplaySpec.DedupedIsFirst | internal/cli/lock.go:1327-1339 | de-duplication keeps exactly the first plugin on each path, in order |
| LockReplaySpec.ReplayLeavesNoURL | internal/cli/lock.go:1257-1368 | after a successful replay no skill source, override, plugin, provider or profile is a URL |
| LockReplaySpec.ReplayPluginsDistinct | internal/cli/lock.go:1300-1339 | plugins end up on distinct paths, the first of each kept, in their order |
| LockReplaySpec.ReplayScalars | internal/cli/lock.go:1130-1196 | each scalar is what the dependencies recorded for its own field make of it; other fields stay |
| LockReplaySpec.ChangesOnlyWhereHeld | internal/cli/lock.go:1123-1168 | a scalar changes only when a dependency of its field was recorded for the URL it holds |
| LockReplaySpec.BecomesFirstMatch | internal/cli/lock.go:1123-1168 | and then it becomes the path of the first dependency that matches |
| LockReplay.Compact | internal/cli/lock.go:1292-1298 | filtering through `s[:0]`, reading and writing one array, keeps exactly what the filter keeps |
| LockReplay.Dedup | internal/cli/lock.go:1327-1339 | the same for de-duplication in place |
| LockReplay.LockReplayCopy | internal/cli/lock.go:1378-1405 | the copy has the caller's value, and all the replay may write through it is new storage |
| LockReplaySpec.ListsAreExact | internal/cli/lock.go:1017-1063 | the profiles and the providers that are returned are exactly those among the dependencies, with their ids or definitions and their paths |
| LockReplay.CollectDeps | internal/cli/lock.go:916-1065 | the collecting loop returns the dependencies in order and the two lists, or fails at the first that cannot be replayed |
| LockReplay.Check | internal/cli/lock.go:916-1096 | what is collected, and all that can be checked before the first write |
| LockReplay.SetOverrides | internal/cli/lock.go:1257-1262 | override values are set through the copy's own maps, and come to the planned ones |
| LockReplay.Strip | internal/cli/lock.go:1264-1368 | merging, filtering and de-duplicating on the heap come to the function on values |
| LockReplay.ReplayOn | internal/cli/lock.go:907-1368 | the whole replay in place comes to `Replay`, which `ReplayExact` states list by list, and reaches no storage it did not reach before or make |
| LockReplay.ResolveFromLock | internal/cli/lock.go:897-1376 | all or nothing: an error leaves the caller's harness and all it reaches unchanged, success leaves exactly the replayed value, on storage made here, and returns the dependencies with their profiles and providers; `ReplayExact` says what that value is, and when there is one |
| ReplayExact.SkillsExact | internal/cli/lock.go:1240-1298 | the skills are the entries of the harness and, behind them, one for each name that appends, each with the path its own name's dependencies give it; those that still hold a URL are gone, the others stay in order |
| ReplayExact.FieldBecomesFirst | internal/cli/lock.go:1123-1254 | an entry that holds the URL of a dependency recorded under its name ends at the path of the first such dependency |
| ReplayExact.PluginsExact | internal/cli/lock.go:1300-1339 | the plugins are, in order, the first on each path that is no URL, their paths given by name and then by URL |
| ReplayExact.NamesExact | internal/cli/lock.go:1341-1368 | providers and profiles are exactly the former ones that are no URL, in order |
| ReplayExact.ScalarsExact | internal/cli/lock.go:1130-1196 | each single field is what the dependencies recorded under its literal name make of it |
| ReplayExact.ChecksExactly | internal/cli/lock.go:916-1096 | the checks before the first write pass exactly when every dependency is allowed, cached and readable, and every URL left has one to stand for it |
| ReplayExact.SucceedsExactly | internal/cli/lock.go:897-1376 | a replay gets through only then; and always then, unless permissions or a merge fail |
| LockAll.UnionIsExact | internal/cli/lock.go:262-416 | the union over forge variants has no URL twice and loses none |
| LockAll.UnionKeepsFirst | internal/cli/lock.go:262-416 | a URL keeps the dependency it was first seen with |
| LockAll.LockOneAgent | internal/cli/lock.go:205-480 | one agent comes to `LockOne`, which `LockEntries.LockOneExactly` states: an unchanged hash skips, a failing variant fails, no dependencies lock nothing |
| LockAll.RunLockAll | internal/cli/lock.go:482-614 | the command comes to `RunAll`, which `LockEntries.FinalLock` states entry by entry, and writes the file at most once |
| LockEntries.UnionIsFirstOfEach | internal/cli/lock.go:262-416 | what is locked is the first dependency on every URL, in order: the harness's own source, then variant by variant, its base before the rest |
| LockEntries.LockOneExactly | internal/cli/lock.go:205-480 | when an agent fails, is skipped, has nothing to lock, or is locked, and that its entry then has the harness's hash and exactly those dependencies |
| LockEntries.FinalLock | internal/cli/lock.go:482-614 | what a success leaves, agent by agent: the old entry, none, or the one its harness calls for; and no other entries |
| LockEntries.PartialLock | internal/cli/lock.go:549-563 | a failure that saves leaves the same for the agents it got past and the old entries for all others |
| LockEntries.SourceIsLocked | internal/cli/lock.go:263-276 | an agent that only the configuration defines gets the dependency on its own source locked |
| LockAll.SuccessAccountsForAll | internal/cli/lock.go:541-595 | after a success over at least one agent every entry left names a known agent and was locked in this run or kept by the up-to-date check |
| LockAll.OnlyKnownLeft | internal/cli/lock.go:529-532 | a success prunes all unknown entries exactly when there is an agent at all, or nothing to prune |
| LockAll.LastEntryIsNeverPruned | internal/cli/lock.go:529-532 | removing the last agent leaves its entry |
| LockAll.EntriesMatchTheirHarness | internal/cli/lock.go:742-757 | an entry left by a success carries its harness's hash, except exactly for a config-sourced agent with nothing to lock and an older entry |
| LockAll.OldEntryIsKept | internal/cli/lock.go:742-757 | such a run, over a harness with one variant: it succeeds, writes nothing and keeps the old hash, whatever the old entry locked |
| LockAll.FailureKeepsUnvisited | internal/cli/lock.go:549-563 | a failure loses no entry of an agent it did not get to, and what it saved is accounted for |
| LockAll.SecondRunIsIdle | internal/cli/lock.go:482-614 | running again on unchanged harnesses changes nothing and writes nothing |
| Generate.RenderIsDistinct | internal/agentnew/render.go:43-93 | whatever the agent is called, no two of its files share a path |
| Generate.WriteFiles | internal/agentnew/generate.go:127-184 | the write loop and its rollback come to `Written` |
| Generate.Generate | internal/agentnew/generate.go:57-185 | the command comes to `Outcomes`, refusal, collisions, validation, dry run, then the writes, which `GeneratedFiles` states path by path |
| GeneratedFiles.FilesAre | internal/agentnew/render.go:43-93 | the files are the four named after the agent and the shared ones, each with its contents and its mode, and exactly the latter are marked shared |
| GeneratedFiles.SharedStays | internal/agentnew/generate.go:77-105 | the policy or the validator, once there, stays as it is, forced or not, and is never in the way |
| GeneratedFiles.CollidesOnOwn | internal/agentnew/generate.go:85-110 | collisions are exactly the files named after the agent that are there |
| GeneratedFiles.StopsExactly | internal/agentnew/generate.go:57-124 | what stops a run before its first write, and in which order, on the tree that is validated |
| GeneratedFiles.TreeIsValidated | internal/agentnew/generate.go:215-267 | that tree is every generated file, and a shared one that is there as it is |
| GeneratedFiles.SuccessWrites | internal/agentnew/generate.go:112-185 | after a success each of the agent's files, and each shared one that was not there, has its contents and mode, and nothing else has changed |
| GeneratedFiles.SecondAgentIsGenerated | internal/agentnew/generate.go:93-103 | so a second agent is generated beside the first, over the same policy |
| Generate.ValidateInTempTree | internal/agentnew/generate.go:215-267 | what is validated is the generated files with the shared assets that are in place |
| Generate.FailureRestores | internal/agentnew/generate.go:127-184 | a failing write loop puts back the bytes, or the absence, of every path but the failing file's |
| Generate.FailingFileRestored | internal/agentnew/generate.go:150-183 | fault by fault, exactly when the failing file has its bytes back too |
| Generate.ChmodFailureKeepsNewBytes | internal/agentnew/generate.go:175-182 | forced over an earlier harness, a failed change of mode leaves the new harness in its place |
| Generate.OverwrittenModeRestored | internal/agentnew/generate.go:139-148 | a file overwritten before the failure gets its mode back exactly when both modes were the same |
| Generate.OverwrittenModeIsLost | internal/agentnew/generate.go:139-148 | forced over an earlier harness that was executable, a failure at the next file gives its bytes back but not its mode |
| Generate.FailureIsContained | internal/agentnew/generate.go:57-185 | dry runs, refusals, collisions and failed validation change nothing; a failed write changes the bytes of at most one file, and never of a shared asset in place |
| Generate.SharedIsNeverWritten | internal/agentnew/generate.go:77-105 | a shared asset that exists is never written, forced or not, whatever happens |
| Generate.ValidatedIsOnDisk | internal/agentnew/generate.go:112-185 | after a success exactly the validated bytes are on disk, with their modes, and nothing else changed |
| Generate.DryRunForetells | internal/agentnew/generate.go:116-124 | a dry run reports what the run without it does, unless a write fails |
| Generate.AgainIsRefused | internal/agentnew/generate.go:85-110 | generating the same agent again without force is refused |
| VueEscape.CloseIsFirst | docs/.vitepress/config.ts:91-105 | the closing run is a whole run of exactly as many backticks, and no whole run before it is |
| VueEscape.EscapedIsSafe | docs/.vitepress/config.ts:84-133 | outside code spans an escaped line holds no brace and no `<` but those of known tags and comments |
| VueEscape.EscapedCode | docs/.vitepress/config.ts:88-112 | code spans and unmatched runs stay where they were |
| VueEscape.EscapeLineIsIdempotent | docs/.vitepress/config.ts:84-133 | escaping a line twice is escaping it once |
| VueEscape.DecodeUndoesEscape | docs/.vitepress/config.ts:84-133 | decoding gives the line back exactly when it held none of the three references outside code |
| VueDocument.EscapeLine | docs/.vitepress/config.ts:84-133 | the loops of `escapeLine` compute `Esc` |
| VueDocument.EscapeVueSyntax | docs/.vitepress/config.ts:53-79 | the fence state machine over the lines computes `Escape` |
| VueDocument.EscapeLineByLine | docs/.vitepress/config.ts:53-79 | the number of lines stays; lines of a fence are copied, every other line is escaped |
| VueFences.FenceExactly | docs/.vitepress/config.ts:59-62 | a line shows a fence exactly when it has at most three spaces and then a run of three or more backticks or tildes, and which one |
| VueFences.NextExactly | docs/.vitepress/config.ts:62-74 | a fence closes exactly at a line with nothing but one of its character, at least as long; and where none is open a line that shows one opens it |
| VueFences.StateExactly | docs/.vitepress/config.ts:53-76 | the state before a line is the fence some line before it opened and none since closed |
| VueFences.EscapedExactly | docs/.vitepress/config.ts:53-79 | a line is copied exactly within a fence or where it shows one, and every other line is escaped |
| VueDocument.EscapedDocumentIsSafe | docs/.vitepress/config.ts:50-79 | nothing Vue would read is left outside fences and code spans |
| VueDocument.EscapeIsIdempotent | docs/.vitepress/config.ts:53-79 | escaping a document twice is escaping it once: it keeps every fence |
| VueDocument.DecodeUndoesDocument | docs/.vitepress/config.ts:53-133 | decoding gives the document back exactly when it held no reference outside fences and code |
| Markers.NeutralizedHasNoOpener | internal/statuscomment/markers.go:21-35 | no marker opener survives, overlapping ones and those the replacement could form included |
| Markers.NeutralizeIsIdempotent | internal/statuscomment/markers.go:26-35 | neutralizing twice is neutralizing once |
| Markers.MarkedHoldsOnlyItsOwn | internal/sticky/sticky.go:88-90 | a posted body holds no marker but its own, whatever the agent wrote |
| Markers.PlantableExactly | internal/statuscomment/markers.go:21-35 | an agent can plant exactly the texts that hold no opener |
| Markers.PlainMarkerCanBePlanted | internal/cli/issues.go:477-479 | so a marker that is not an opener can be planted: only blank ones are refused |
| Sticky.SelfIsFirstAnswer | internal/cli/issues.go:973-1002 | the identity is the first non-empty answer within three attempts and before a cancellation |
| Sticky.FindMarked | internal/cli/issues.go:1004-1021 | the first comment of that author with the marker |
| Sticky.FindByMarkerProperty | internal/tracker/jira_client.go:354-423 | on Jira the property decides, then a legacy marker in front of a comment that has no property |
| Sticky.PostTrackerSticky | internal/cli/issues.go:638-713 | the command on a forge comes to `PostForge`, which `StickyPosts.ForgeRunExactly` states |
| Sticky.PostJiraSticky | internal/cli/issues.go:544-636 | the command on Jira comes to `PostJira`, the migration of a legacy comment included |
| StickyPosts.ForgeRunExactly | internal/cli/issues.go:638-713 | what a run on a forge leaves: the first own comment with its marker rewritten, or one posted, with the builder's body or the marker and the neutralized text; all others as they were; and success exactly when the write is seen to land |
| StickyPosts.JiraRunExactly | internal/cli/issues.go:544-636 | the same on Jira, where the property comes first and then the escaped body, and each of the two writes may fail or land unseen |
| StickyUpdates.UpdateShowsNewText | internal/cli/issues.go:676-693 | a reported update has put the neutralized text, behind the marker, at the front of that comment, when it fits with the note of a cut |
| Sticky.RunTouchesOnlyOwn | internal/cli/issues.go:544-713 | a run edits only comments of the identity it posts as, creates at most one, and does nothing when that identity is not known |
| Sticky.OthersAreNeverEdited | internal/cli/issues.go:544-713 | no sequence of runs edits or removes a comment of another author |
| Sticky.SuccessLeavesOne | internal/cli/issues.go:544-713 | a run that reports success leaves an own comment with its marker |
| Sticky.ForgeKeepsTheOneForever | internal/cli/issues.go:638-713 | with one marker in play, of any form, and any body builder, there is never more than one own comment with it |
| Sticky.ForgeKeepsOneForever | internal/cli/issues.go:638-713 | with several runner markers, none of which starts with another, and a builder that keeps markers there is never more than one own comment for each |
| Sticky.JiraKeepsOneForever | internal/cli/issues.go:544-636 | on Jira there is never more than one own comment per marker, whatever markers and bodies are |
| StickyBody.CutBody | internal/sticky/sticky.go:325-345 | the cut backs off to a rune start and adds the note |
| StickyBody.BuildMakesNone | internal/sticky/sticky.go:213-232 | a body updated in place holds no marker that neither the old nor the new body held, footer and cut included |
| StickyHistory.MakeEntries | internal/sticky/sticky.go:250-292 | what moves into history: the neutralized current content, then the earlier blocks, neutralized and numbered |
| StickyHistory.BuildUpdatedBody | internal/sticky/sticky.go:205-323 | the builder, with history and without, comes to `Build` |
| StickyHistory.KeepsAsManyAsFit | internal/sticky/sticky.go:311-320 | as many of the newest entries as fit are kept, and the body is cut only when it does not fit without any |
| StickyUpdates.NewTextInFront | internal/sticky/sticky.go:205-323 | an updated body starts with the new text when that fits with the footer, or with the note of a cut |
| StickyUpdates.FooterStays | internal/sticky/sticky.go:205-323 | an update that fits keeps the footer: what follows the last footer marker is at the end again |
| StickyUpdates.FooterStaysForever | internal/sticky/sticky.go:205-323 | and so does any number of them |
| StickyUpdates.BlocksBehind | internal/sticky/sticky.go:294-306 | a body with history is the new text and, for each entry in order, a block with its summary and its content between the two sentinels |
| StickyUpdates.HistoryGrows | internal/sticky/sticky.go:250-309 | an update moves the last text, neutralized and trimmed, in front of the history, and numbers the earlier runs anew, word for word |
| StickyUpdates.HistoryForever | internal/sticky/sticky.go:205-323 | over any number of updates that fit, the comment holds every text that was posted, the newest in front, the others behind it in order |
| StickyHistory.BuildMakesNoMarker | internal/sticky/sticky.go:205-323 | an updated body holds no marker that neither the old nor the new body held, whatever moves into history |
| StickyHistory.MarkerStaysExactly | internal/sticky/sticky.go:205-323 | it keeps its marker, whatever is posted over whatever was there, exactly when the marker and the note of a cut fit the size limit |
| StickyHistory.LongBodyLosesMarker | internal/sticky/sticky.go:325-345 | otherwise a long body posted over a comment that is only its marker loses it |
| StickyHistory.BuilderKeepsExactly | internal/sticky/sticky.go:205-323 | so the builder, with history and without, is one that keeps one comment per marker exactly under that condition |
| AppSetup.FindExistingInstallation | internal/appsetup/appsetup.go:384-423 | a known slug is looked for first, then the expected one |
| AppSetup.RecoverCreatedApp | internal/appsetup/appsetup.go:336-382 | an app is recovered only when its key is stored, from the first candidate that exists |
| AppSetup.WaitForAppReady | internal/appsetup/appsetup.go:925-965 | waiting ends the run only when it is cancelled before the app can be reached |
| AppSetup.EnsureIsInstalled | internal/appsetup/appsetup.go:967-1031 | one listing, the wait, then polling while the user installs |
| AppSetup.HandleExistingApp | internal/appsetup/appsetup.go:544-652 | an installed app is reused, or its key asked for, or refused when another owner's |
| AppSetup.RunSetup | internal/appsetup/appsetup.go:220-334 | a run, with any remote step failing or landing unseen, comes to `Setup` |
| AppSetup.InstalledExactly | internal/appsetup/appsetup.go:544-652 | a run that finds an app installed: which credentials, which failures, and what is stored, by the owner, the stored id, the stored key and the user's answer |
| AppSetup.AnothersAppIsRefused | internal/appsetup/appsetup.go:592-608 | another organisation's app is never given a key, and returned only with a key stored that is not stale |
| AppSetup.InstallNeedsConsent | internal/appsetup/appsetup.go:268-298 | an app that is there, and neither installed nor recoverable, is installed only when apps are public or the user agrees |
| AppSetup.RecoversExactly | internal/appsetup/appsetup.go:336-382 | which app is recovered when nothing fails, and when none is |
| AppSetup.ReturnedIsInstalled | internal/appsetup/appsetup.go:220-334 | credentials that are returned are for an app installed on the organisation |
| AppSetup.LedgerForever | internal/appsetup/appsetup.go:230-334 | over any runs, stopped anywhere, and anything others do: no app created is lost, and a slug is asked for again only after its app was given another name |
| AppSetup.OneAppPerSlug | internal/appsetup/appsetup.go:268-314 | a slug whose app was created under that name is never asked for again |
| AppSetup.CreatesExactly | internal/appsetup/appsetup.go:230-318 | the guards under which a run creates an app, both ways, and which one |
| AppSetup.CreatedAgainExactly | internal/appsetup/appsetup.go:385-423 | a slug gets a second app exactly when a run asked for it again passes those guards |
| AppSetup.RenamedIsCreatedAgain | internal/appsetup/appsetup.go:385-423 | two runs for one role that create two apps, the first having been renamed |
| AppSetup.KeylessExactly | internal/appsetup/appsetup.go:268-310 | credentials without a key anywhere are returned exactly when the app was there, not installed, and no key stored |
| AppSetup.CrashBeforeStoringLosesKey | internal/appsetup/appsetup.go:268-326 | two runs, the first stopped between creating the app and storing its key, that end so |
| AppSetup.NextRunRecovers | internal/appsetup/appsetup.go:336-382 | once the key is stored the next run returns the same app and creates none |
| ProfileGraph.ResolveAlias | internal/cli/gitlab_profile.go:296-305 | an alias chain is followed for a bounded number of steps, cyclic or not |
| ProfileGraph.ProfileIssuesCredential | internal/cli/gitlab_profile.go:265-290 | the nested loops find a credential that issues the token exactly when one does |
| ProfileGraph.DecidesExactly | internal/cli/gitlab_profile.go:194-240 | an endpoint is added exactly to a profile with a credential that issues `GITLAB_TOKEN`, whose list of endpoints has a mapping and none for the host and port; the template is the first mapping |
| ProfileGraph.TemplateIsFirst | internal/cli/gitlab_profile.go:215-240 | the first element that is a mapping, behind its alias if it is one, and none exactly when no element is |
| ProfileGraph.CloneNode | internal/cli/gitlab_profile.go:344-356 | a deep copy of new nodes only, with the same tree |
| ProfileGraph.SetScalar | internal/cli/gitlab_profile.go:321-332 | setting a key of a copied mapping changes that key's value and nothing else |
| ProfileGraph.WithScalarLooksUp | internal/cli/gitlab_profile.go:307-332 | afterwards that key looks up the new value and every other key what it did |
| ProfileGraph.EndpointDiffersInHostAndPort | internal/cli/gitlab_profile.go:241-243 | the new endpoint has the host and the port, and every other key of its template |
| ProfileGraph.AddEndpoint | internal/cli/gitlab_profile.go:194-263 | at most one node is written; the added endpoint is the template's but for host and port, all its nodes new; a list behind an alias stays as it is; another run may start on what is left and changes nothing |
| AgentConfig.AllowlistPrefixIsPrefix | internal/cli/agent.go:913-924 | the prefix is the shortest prefix of the stored source that ends with its repository |
| AgentConfig.ConfigFile.AgentAdd | internal/cli/agent.go:355-418 | `agent add` comes to `Added`, and leaves the file alone when it fails |
| AgentConfig.ConfigFile.AgentRemove | internal/cli/agent.go:689-742 | `agent remove` comes to `Removed`, and leaves the file alone when it fails |
| AgentConfig.RemovesExactly | internal/cli/agent.go:689-742 | the first agent by that name goes, all others stay in order, and of the prefixes exactly its repository's goes, when no agent left is from there; it fails exactly when there is none by that name or the result is refused |
| AgentConfig.AddsExactly | internal/cli/agent.go:355-418 | the agent comes last, as pinned and named, and its repository behind the prefixes unless listed; it fails exactly when the source is refused, the name is taken, or the result is refused |
| AgentConfig.RemoveKeepsGood | internal/cli/agent.go:689-742 | removal takes no prefix away that an agent left needs |
| AgentConfig.EveryRunKeepsGood | internal/cli/agent.go:355-418 | over any commands every URL agent's repository stays listed and names stay unique but for case |
| AgentConfig.RemoveUndoesAdd | internal/cli/agent.go:709-726 | adding and removing gives the agents back, and the prefixes exactly when the repository was listed if and only if another agent uses it |
| AgentConfig.ListedIsDropped | internal/cli/agent.go:709-726 | a repository that was listed and is used by no agent is gone after an add and a remove |
| AgentConfig.ListedPrefixIsDropped | internal/cli/agent.go:709-726 | such a source: any file of a repository, pinned to a commit and a hash |
| AgentConfig.ResolveBranchAndPath | internal/cli/agent.go:830-857 | branch and path make up the URL again, and no shorter branch exists |
| PatchSelect.LatestIsExact | docs/.vitepress/mvb-satisfies.ts:21-32 | without a cap: the highest patch of every minor, in ascending precedence |
| PatchSelect.SelectsExactly | docs/.vitepress/mvb-satisfies.ts:17-38 | an error exactly for a bad cap, the range exactly when nothing qualifies, and otherwise exactly the highest patch of each of the newest minors, once each, ascending |
| ModelId.PassMakesProgress | internal/cli/inference_gateway.go:385-387 | one pass keeps the spaced form and strictly reduces the number of adjacent colon pairs |
| ModelId.SpacedHasNoPairs | internal/cli/inference_gateway.go:385-387 | the result holds no pair of colons |
| ModelId.SpacedOnlyAddsSpaces | internal/cli/inference_gateway.go:385-387 | only spaces are put in, one for each pair |
| ModelId.SplitColons | internal/cli/inference_gateway.go:385-387 | the loop ends on every string, with one space between every two adjacent colons |
| ModelId.DisplayModelId | internal/cli/inference_gateway.go:367-389 | what is shown holds no control character and no pair of colons |

## Findings

Properties that the code does not have. Each has its exact condition and an input at which it fails, both as lemmas.

| source | as written | exact condition, and an input | intended |
|---|---|---|---|
| internal/appsetup/appsetup.go:286-310 | an app that is there but not installed is taken for someone's public app, and its credentials come without a key | `AppSetup.KeylessExactly`: exactly when the app is there, not installed, and no key is stored; `AppSetup.CrashBeforeStoringLosesKey` | credentials come with a key, theirs or stored |
| internal/appsetup/appsetup.go:385-423 | an app the user renamed is not found under the slug that was asked for | `AppSetup.CreatesExactly` and `AppSetup.CreatedAgainExactly`: the guards of a second creation; `AppSetup.RenamedIsCreatedAgain` | a role's app is created once |
| internal/cli/lock.go:529-532 | with no agent left the run returns before the pruning | `LockAll.OnlyKnownLeft`: exactly when no agent is left and the lock is not empty; `LockAll.LastEntryIsNeverPruned` | a success leaves only known agents in the lock |
| internal/cli/lock.go:745-757 | the up-to-date check looks at local harness files only | `LockAll.EntriesMatchTheirHarness`: exactly for a config-sourced agent with nothing to lock and an older entry; `LockAll.OldEntryIsKept` | an entry carries its harness's hash |
| internal/agentnew/generate.go:171-182 | a file is put in the undo log only after its write and its change of mode | `Generate.FailingFileRestored`, fault by fault; `Generate.ChmodFailureKeepsNewBytes` | a failure leaves every file with its bytes |
| internal/agentnew/generate.go:139-148 | the rollback writes the bytes back, which does not set the mode of a file that exists | `Generate.OverwrittenModeRestored`: exactly when the two modes differ; `Generate.OverwrittenModeIsLost` | a rollback restores overwritten files |
| internal/cli/issues.go:477-479 | any marker but a blank one is accepted, and the neutralizer escapes only openers | `Markers.PlantableExactly`: exactly for a marker that holds no opener; `Markers.PlainMarkerCanBePlanted` | agent text holds no marker |
| internal/cli/agent.go:709-726 | removal takes away a prefix no agent uses any more, whoever listed it | `AgentConfig.RemoveUndoesAdd`: for a URL agent, unless its repository was listed if and only if another agent uses it; `AgentConfig.ListedPrefixIsDropped` | removing an agent undoes adding it |
| internal/sticky/sticky.go:325-345 | the cut keeps no room for the marker | `StickyHistory.MarkerStaysExactly`: exactly when the marker and the note of a cut exceed the size limit; `StickyHistory.LongBodyLosesMarker` | an updated comment keeps its marker |

## Left out

- The redactor (pipeline, environment secrets, URL masking): any function that leaves an empty text empty and raises nothing on it.
- RecordJSON.RecordReadsBack: takes where a call's arguments end as any function that finds the end of that object; the reader knows the members of a record, not all of JSON.
- ReplayExact.SkillsExact, and all of `ReplayExact` about lists: assume that scanning `skills[%d]` reads back an index as it is printed, in digits.
- StickyUpdates.HistoryForever: assumes that the two block patterns find the blocks that were written, where no text opens a block and none ends one; the patterns themselves are not part of this model.
- Decoding a call's arguments, and which members the table lists for which tool: any function and any table. Members come sorted by key, as the code walks them.
- JSON, YAML, CEL and semver parsing: part encodings, node graphs and version triples stand for them.
- Details of findings beyond the scanner and the name.
- LockReplay.ResolveFromLock: takes the merge of overrides of duplicate skills as any function that keeps entries and sources and makes up no override value, and parsing a cached profile or provider as any function; the warning about literal credentials is not modelled.
- The restore block at internal/cli/lock.go:1282-1290: the working copy is thrown away on an error, so it has no effect.
- Names and symlinks inside the cache, `Sscanf`, and printing an integer: parameters of the replay. A name scanned to a negative or too large index has no slot, as in the code.
- nil slices and maps are empty ones; a JSON or YAML writer could tell them apart.
- LockAll: does not model timestamps, the merge of local and configured names, the forge flag, or reading a lock file that does not parse.
- Generate: undo writes succeed; directories that were made stay; symlink and file-type checks, the umask and the contents of the files are parameters.
- VueDocument.EscapeVueSyntax: takes the list of known tags as a parameter, made of ASCII letters and digits; code units are characters.
- Sticky: takes the body builder as a parameter with stated assumptions, which `StickyHistory` shows of the one there is. How old content is split into blocks is any function, and trimming any that takes a part out of a text. A trusted leading line and Jira's own neutralizer are not part of this model. Runs do not overlap.
- AppSetup.RunSetup: does not model the permission check of a reused app, which only collects messages, nor the browser flow and the validity of a key; lookups are truthful when they do not fail.
- AppSetup.HandleExistingApp: does not model the permission check either.
- AppSetup.KeylessExactly: is about a setup that checks and stores keys and gets one from the manifest flow.
- ProfileGraph: any bound on the alias depth stands for the code's 16; equality but for case is equality of a folding function; comments, styles and anchors of nodes are not modelled.
- AgentConfig: derived names, lower-casing, URL parsing and pinning are parameters; one configuration layer.
- `agent update`, `agent set`, setup flag composition, dispatch routing, forge and network clients: plumbing or single-branch facts.
