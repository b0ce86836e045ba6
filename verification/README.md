# Verified models of an agent platform's memory, identity and permission cores

The Dafny files here model six parts of the repository and prove properties of them. Storage is an
in-memory map; each locked store call is one atomic step; time is a parameter that never goes back.

* **Topic folding and consolidation** (`Canonicalize`, `TopicFolding`, `MemoryTiers`, `Listing`,
  `Consolidate`, `ConsolidateUser`, `NoLoss`, `FixedPoint`, `Merging`, `MergeExample`, `Retention`; `TopicNames`,
  `StoreOutcomes`, `FoldOutcome` and `PassOutcome` say field by field what names, store operations and phases come to).
  `deterministic_canonical` is a union-find with path halving over a similarity graph; it is shown to compute the transitive closure of
  similarity. The consolidation pass is written twice, as a function and as the imperative loops over a store
  object, and the two agree. One pass reaches a fixed point, loses no statement, and keeps the topic index exact.
* **Shell commands** (`ShellSplit`, `ShellQuoting`, `PermissionEngine`, `PermissionVerdicts`). The quote-aware splitter (an approximation of
  section 2.2 of the POSIX Shell Command Language; the model follows the code) is a homomorphism with an
  inverse. The segment-wise ALLOW matcher and the decision cascade hold for any rule matching, command
  classification and path protection; each mode's verdicts have their exact conditions.
* **Refresh tokens** (`RefreshStore`, `RefreshService`, `RefreshOutcomes`, `RefreshInterleaving`, `RaceExample`, `RefreshRefinement`): rotation
  with reuse detection as in section 4.14.2 of RFC 9700. One model takes a service call as a step; the other
  interleaves threads between store calls, with the stale records they hold. A thread running alone does what
  the service method does.
* **Accounts and invitations** (`Accounts`, `OrgSafety`, `OrgRights`, `OrgOutcomes`, `OrgService`): what every sequence of operations
  keeps, who may change what, when each operation succeeds, and every method of the service on its stores.
* **Rate limiting and lockout** (`RateLimit`): lazily trimmed queues give the answers of the full history.
* **Pacing and documents** (`Pacing`, `Frontmatter`, `MemoryDocuments`): the closed form of claimed slots, and the round trip of a
  memory through Markdown with a YAML header.

Classes carry the state the source updates in place. Each method is proved equal to a function of the old
state; the theorems are lemmas about those functions and about runs of them. Where such a function is a sequence of
cases, other lemmas say what it comes to without naming it or its helpers.

Where code and documentation differ, the model follows the code:

* `agents/adk_cc/identity/service.py:231-236` says that losing the rotation race kills the whole chain. The
  record in hand was read before the race and names no successor, so the walk visits nothing
  (`RefreshInterleaving.LostRaceWritesNothing`), and the winner's token can stay live
  (`RaceExample.LostRaceLeavesTheFamilyLive`). Chain revocation is therefore stated for the branch at
  lines 220-223 only.
* `agents/adk_cc/memory/consolidate.py:172-175` says that in a merge of variant nodes the newest value wins.
  Each merge dates the node with the pass's clock, so from the second variant on a newer text loses
  (`MergeExample.NewestCanLose`; `Merging.StoredTextIsNewestIff` says exactly when a newest one does win).
* `agents/adk_cc/permissions/broadening.py:242-244` says that an exact re-run stays one click, even for a compound.
  Line 224 stores the command stripped, and `agents/adk_cc/permissions/engine.py:157-160` compares it with the
  command as given (`PermissionEngine.SudoAsksAgain`; `PermissionEngine.AllowAlwaysCoversRerunIff` says exactly
  when the re-run is admitted).
* `agents/adk_cc/memory/consolidate.py:121-126` reads a UTC timestamp as local time. The parameter `zone` of a
  pass is that shift.
* `agents/adk_cc/memory/store.py:350-371` writes the index entry of a reverted topic even when the topic is
  archived (`MemoryTiers.RevertKeepsIndexIff`).
* `agents/adk_cc/memory/store.py:350-353` calls itself the rollback for a bad merge. A merge records the losing text
  before the loser's own history, and the last entry recorded is what comes back (`StoreOutcomes.RevertBringsBackOlder`;
  `StoreOutcomes.RevertAfterMergeIff` says exactly when it is the text that lost).
* `agents/adk_cc/memory/canonicalize.py:53` describes similarity as overlap or subset; a topic without
  meaningful tokens is similar to nothing, not even to another such topic.

## Model

| member | source | states |
|---|---|---|
| Canonicalize.ClusteringIsExact | agents/adk_cc/memory/canonicalize.py:71-89 | Two topics get the same slug if and only if a chain of pairwise similar topics links them. |
| Canonicalize.CanonicalIsIdempotent | agents/adk_cc/memory/canonicalize.py:84-89 | A slug is one of the topics and its own slug. |
| Canonicalize.LeastIsUnique | agents/adk_cc/memory/canonicalize.py:86 | The slug is the one least member of its cluster by (token count or 99, name), so it does not depend on input order or repeats. |
| Canonicalize.RestrictingNeverJoins | agents/adk_cc/memory/canonicalize.py:71-82 | Topics linked within a subset of the topics are linked within the whole: clustering fewer topics never joins two clusters. |
| Canonicalize.SimilarIsSymmetric | agents/adk_cc/memory/canonicalize.py:46-49 | Similarity (subset, or half the tokens shared) does not depend on which of the two topics comes first. |
| Canonicalize.HalvingKeepsRoots | agents/adk_cc/memory/canonicalize.py:60-64 | Halving a path at a node leaves every topic's root as it was and the links acyclic. |
| Canonicalize.JoiningKeepsForest | agents/adk_cc/memory/canonicalize.py:66-69 | Linking one root under another joins exactly their two trees. |
| Canonicalize.Forest.Find | agents/adk_cc/memory/canonicalize.py:60-64 | Terminates, returns the topic's root, and changes no root. |
| Canonicalize.Forest.Union | agents/adk_cc/memory/canonicalize.py:66-69 | Afterwards the two trees have one root, every other topic the root it had. |
| Canonicalize.UniteSimilar | agents/adk_cc/memory/canonicalize.py:71-78 | After the double loop two topics have the same root if and only if a chain of similar pairs links them. |
| Canonicalize.Clusters | agents/adk_cc/memory/canonicalize.py:80-82 | One list per root, holding exactly the topics with that root; no root changes. |
| Canonicalize.NameClusters | agents/adk_cc/memory/canonicalize.py:84-88 | Every topic is given the least member of its own cluster, in whatever order the clusters come. |
| Canonicalize.DeterministicCanonical | agents/adk_cc/memory/canonicalize.py:52-89 | The loops compute exactly the map of least linked members, for every list of topics. |
| TopicNames.TokensAreWords | agents/adk_cc/memory/canonicalize.py:40-43 | For every text cut into words at `-` and `_`, the tokens are exactly the words that are neither blank nor stop words. |
| TopicNames.SlugIsWords | agents/adk_cc/memory/canonicalize.py:40-43 | Every text is such words and cuts. |
| TopicNames.SimilarIff | agents/adk_cc/memory/canonicalize.py:46-49 | Two topics are similar if and only if both have tokens and one's are among the other's or the Jaccard index, as a real number, is at least one half. |
| TopicNames.NamedByTheMostGeneral | agents/adk_cc/memory/canonicalize.py:84-89 | The slug of a topic is g if and only if g is of its cluster and has the fewest tokens there, first by name among those; topics without tokens are alone. |
| TopicNames.FoldTarget | agents/adk_cc/memory/consolidate.py:102-113 | A topic folds onto the most general one of its cluster when that has a node or none there has, and otherwise onto the first by name of those that have one. |
| Text.LexLeqIff | agents/adk_cc/memory/canonicalize.py:86 | The order that breaks ties: a prefix first, otherwise the lesser character at the first difference. |
| TopicFolding.FoldKeepsPartition | agents/adk_cc/memory/consolidate.py:102-113 | Re-rooting onto existing nodes groups topics exactly as the clustering did. |
| TopicFolding.FoldIsIdempotent | agents/adk_cc/memory/consolidate.py:102-113 | A topic's fold target folds onto itself. |
| TopicFolding.FoldPrefersSemantic | agents/adk_cc/memory/consolidate.py:106-112 | A group with a semantic topic folds onto a semantic topic of that group. |
| TopicFolding.SettledTopicsStaySettled | agents/adk_cc/memory/consolidate.py:97-113 | When topics go, as from one pass to the next, a topic still folds onto itself provided the cluster mates left to it, itself included, all did. |
| TopicFolding.Groups | agents/adk_cc/memory/consolidate.py:103-105 | One list per canonical slug, holding exactly the topics with that slug. |
| TopicFolding.RerootGroup | agents/adk_cc/memory/consolidate.py:106-112 | One group's members are sent to its first semantic member, unless its slug is semantic; other groups are left alone. |
| TopicFolding.CanonicalTopicMap | agents/adk_cc/memory/consolidate.py:86-113 | The loops compute exactly that fold, or the empty map when canonicalization is off. |
| MemoryTiers.PutKeepsIndexIff | agents/adk_cc/memory/store.py:199-216 | Writing a document keeps the topic index equal to the projection of the semantic tier if and only if the document is not archived. |
| MemoryTiers.SetStatusKeepsIndex | agents/adk_cc/memory/store.py:246-262 | A change of status, in either tier and of any document, keeps the index exact. |
| MemoryTiers.CorroborateKeepsIndex | agents/adk_cc/memory/store.py:218-238 | So does a corroborating capture. |
| MemoryTiers.RecordAccessKeepsIndex | agents/adk_cc/memory/store.py:264-274 | So does recording an access. |
| MemoryTiers.RevertKeepsIndexIff | agents/adk_cc/memory/store.py:350-371 | Undoing a merge keeps the index exact if and only if the topic is not an archived one with a history; otherwise an archived topic comes back into the index. |
| MemoryTiers.MemoryStore.Put | agents/adk_cc/memory/store.py:199-216 | The new tiers and index are those of the write, entry included. |
| MemoryTiers.MemoryStore.ChangeStatus | agents/adk_cc/memory/store.py:246-262 | The new tiers and index are those of the status change; reports whether the document exists. |
| MemoryTiers.MemoryStore.CorroborateSemantic | agents/adk_cc/memory/store.py:218-238 | The new state and answer are those of the corroboration; nothing changes unless the topic is live. |
| MemoryTiers.MemoryStore.Access | agents/adk_cc/memory/store.py:264-274 | Only the topic's access count changes. |
| MemoryTiers.MemoryStore.RevertSemantic | agents/adk_cc/memory/store.py:350-371 | The last superseded text is current again and leaves the history. |
| StoreOutcomes.RevertUndoesFoldIff | agents/adk_cc/memory/store.py:350-371 | Reverting after one capture was folded in gives back text and history if and only if the text was recorded by the fold (not blank, not the new text, not in the history yet), or the capture said the same and there was no history; no other field but the date moves. |
| StoreOutcomes.RevertAfterMergeIff | agents/adk_cc/memory/store.py:350-371 | Reverting after two nodes were merged brings back the text that lost, where the merge recorded it, if and only if the losing node's own history had nothing new to add. |
| StoreOutcomes.RevertBringsBackOlder | agents/adk_cc/memory/store.py:350-371 | Two nodes whose merge, reverted, brings back an older statement of the variant and not the one merged away. |
| StoreOutcomes.SeenAgain | agents/adk_cc/memory/store.py:218-238 | n sightings of a live fact from one source raise its confidence by five hundredths each up to 95, list the source once, and leave every other field and document. |
| StoreOutcomes.NotSeenAgain | agents/adk_cc/memory/store.py:218-238 | A sighting is taken as a corroboration if and only if the fact is there and neither draft nor archived; otherwise nothing changes. |
| StoreOutcomes.AccessesAddUp | agents/adk_cc/memory/store.py:264-274 | n accesses add n to the count of the fact and change nothing else. |
| StoreOutcomes.ArchiveThenRestore | agents/adk_cc/memory/store.py:246-262 | A fact archived, then given its status back, is as it was but for the date, its index entry gone and back. |
| StoreOutcomes.IndexSays | agents/adk_cc/memory/store.py:333-347 | An exact index lists just the facts not archived, with their confidence, status and date, and their text cut at 160 characters. |
| ConsolidateUser.Run | agents/adk_cc/memory/consolidate.py:129-277 | The imperative pass over the store object ends in exactly the state and report of the pass as a function. |
| ConsolidateUser.MergeVariant | agents/adk_cc/memory/consolidate.py:183-210 | Merging a variant node and archiving it does to the store what one merge step of the pass does. |
| ConsolidateUser.FoldOne | agents/adk_cc/memory/consolidate.py:213-256 | Folding one topic's captures does to the store what one fold step of the pass does; what that leaves is `FoldOutcome.FoldTopicOutcome` and `FoldOutcome.FoldTopicRecords`. |
| FoldOutcome.FoldTopicOutcome | agents/adk_cc/memory/consolidate.py:213-256 | A topic that had a node keeps its access count and creation date and is consolidated; one that had none starts at 0, now and active. Confidence is 60 or 40 plus 10 for each capture, up to 95; the text is the newest capture's. |
| FoldOutcome.FoldTopicRecords | agents/adk_cc/memory/consolidate.py:221-240 | Sources are exactly the node's and the captures'; what is added to the history is the node's text or a capture's, never blank, current or a repeat. |
| FoldOutcome.FoldAllOutcome | agents/adk_cc/memory/consolidate.py:213-256 | Both hold of every topic worked on, from the node it had before the folding. |
| FoldOutcome.FoldAllFrame | agents/adk_cc/memory/consolidate.py:213-256 | A node nobody works on is as it was. |
| FoldOutcome.TopicsAreFolded | agents/adk_cc/memory/consolidate.py:129-277 | So in a whole pass, from the node after the merge phase; afterwards only the sweep touches it, and only where the node is new and the clock error exceeds the limit, or the limit is negative. |
| FoldOutcome.CapturesAreMarked | agents/adk_cc/memory/consolidate.py:153-168 | The captures consolidated are exactly the active and draft ones that fold where a wanted topic folds; no other changes in the folding. |
| PassOutcome.CapturesAreCounted | agents/adk_cc/memory/consolidate.py:163-170 | A topic's work has each such capture once. |
| ConsolidateUser.SweepStale | agents/adk_cc/memory/consolidate.py:258-263 | The loop does to the store what the sweep as a function does; which facts that archives is `Retention.SweepArchivesIff`. |
| ConsolidateUser.PruneSurplus | agents/adk_cc/memory/consolidate.py:265-275 | Archives exactly the oldest consolidated captures beyond the cap. |
| ConsolidateUser.Cluster | agents/adk_cc/memory/consolidate.py:163-168 | The clusters are exactly the wanted fold targets, each with the fresh captures that fold onto it. |
| ConsolidateUser.DuplicateGroups | agents/adk_cc/memory/consolidate.py:176-180 | The groups are exactly the fold targets of live topics that fold elsewhere, each with those topics in listing order. |
| Merging.GroupIsMerged | agents/adk_cc/memory/consolidate.py:181-210 | After the merge phase each group's node has the sum of the group's accesses, its earliest creation, its highest confidence, the text of the winner as the code picks it, and is consolidated. |
| Merging.WinnerIsEarly | agents/adk_cc/memory/consolidate.py:183-206 | With dates up to now, the winner is the first variant if it was touched after the node, else the node: later variants are compared with the date of the merge itself. |
| Merging.NewestMergedWinsIff | agents/adk_cc/memory/consolidate.py:172-190 | The same condition for the node the code takes the text from, over any list of variants dated up to now. |
| Merging.StoredTextIsNewestIff | agents/adk_cc/memory/consolidate.py:172-210 | After the merge phase of a pass the text stored for a group is that of the node or its first variant, and is a newest one if and only if no later variant was touched after that, or one that was says the same. |
| PassOutcome.LaterTextStays | agents/adk_cc/memory/consolidate.py:183-206 | Of two nodes merged, the text of the one changed, or made where never changed, later stays; the group's own on a tie. |
| PassOutcome.MergeRecordsOnly | agents/adk_cc/memory/consolidate.py:181-210 | The node of a group ends the merge phase with statements and sources of the group's nodes alone. |
| PassOutcome.VariantsAreArchived | agents/adk_cc/memory/consolidate.py:176-210 | Every live topic that folds elsewhere is archived by the merge phase and otherwise as it was; a topic nothing folds onto and that folds onto itself is untouched. |
| PassOutcome.MergedAreCounted | agents/adk_cc/memory/consolidate.py:176-210 | The report's merge count is the number of live topics that fold elsewhere. |
| PassOutcome.SeenAreCounted | agents/adk_cc/memory/consolidate.py:153-156 | Its captures seen are the active and draft ones. |
| PassOutcome.CreatedAreCounted | agents/adk_cc/memory/consolidate.py:213-256 | Its created topics are those without a node after the merges; created and updated make up its topics. |
| PassOutcome.TopicsAreReported | agents/adk_cc/memory/consolidate.py:163-168 | Its topics are those the captures taken up fold onto, each once. |
| PassOutcome.ArchivedAreCounted | agents/adk_cc/memory/consolidate.py:258-263 | Its archived facts are those whose status the sweep changes. |
| MergeExample.NewestCanLose | agents/adk_cc/memory/consolidate.py:172-210 | Three similar live topics that a pass merges into the first: the third was touched last, and the second one's text is stored. |
| Retention.SweepIsExact | agents/adk_cc/memory/consolidate.py:258-263 | Exactly the facts the staleness test picks are archived, and stamped; nothing else changes. `SweepArchivesIff` says which those are. |
| Retention.SweepArchivesIff | agents/adk_cc/memory/consolidate.py:258-263 | The sweep archives a fact if and only if it was active, was never accessed, has a date, and the clock less that date, read as local time, exceeds 86400 seconds times the limit; with a negative limit the date does not matter. |
| Retention.UsedFactsStay | agents/adk_cc/memory/consolidate.py:258-263 | A fact that has been accessed is not archived, however old. |
| Retention.PrunedAreTheOldest | agents/adk_cc/memory/consolidate.py:265-275 | No capture pruned was changed, or made where never changed, after a consolidated one that is kept. |
| Retention.PruneKeepsTheNewest | agents/adk_cc/memory/consolidate.py:265-275 | Exactly as many consolidated captures as exceed the cap are archived, none touched after one that is kept. |
| NoLoss.NothingIsLost | agents/adk_cc/memory/consolidate.py:172-256 | No document disappears or says less. Every text and superseded text of a live node, and every promoted capture's text, is afterwards current or in the history of the node it folds onto, with its sources. |
| NoLoss.HistoryHolds | agents/adk_cc/memory/consolidate.py:191-195 | The grown history keeps what it had and holds every older statement that is neither blank nor current. |
| FixedPoint.OnePassIsAFixedPoint | agents/adk_cc/memory/consolidate.py:152-277 | A pass that promotes everything, run again at the same `now`, changes neither tiers nor index and reports no work. |
| FixedPoint.NewestCaptureWins | agents/adk_cc/memory/consolidate.py:213-220 | Each topic worked on ends with the text of a newest of its captures. |
| FixedPoint.PassKeepsIndex | agents/adk_cc/memory/consolidate.py:172-275 | A whole pass keeps the topic index exact. |
| FixedPoint.RunKeepsIndex | agents/adk_cc/memory/store.py:199-274 | Over any run of captures, non-archived writes, corroborations, status changes, accesses, reverts of non-archived topics and passes, the index is the projection of the semantic tier. |
| ShellSplit.SplitCompound | agents/adk_cc/permissions/broadening.py:362-437 | The quote-aware loop computes the split defined by first unquoted separators, including every input it refuses. |
| ShellSplit.SplitIsHomomorphism | agents/adk_cc/permissions/broadening.py:362-437 | For splittable c and any d, splitting `c sep d` is splitting c, then splitting d; it fails just when d does. |
| ShellSplit.SegmentsResplit | agents/adk_cc/permissions/broadening.py:376-382 | Each segment of a split splits to itself alone. |
| ShellSplit.SplitOfJoin | agents/adk_cc/permissions/broadening.py:362-437 | Segments that split to themselves, joined by any spaced separators, split back into those segments and separators. |
| ShellSplit.SplitJoinRoundTrip | agents/adk_cc/permissions/broadening.py:362-437 | Writing a split out with spaced separators and splitting again gives the same list. |
| ShellQuoting.PlainText | agents/adk_cc/permissions/broadening.py:362-437 | Text without quotes, backslashes and separators is one segment, and unsafe if and only if one of ( ) $ ` < > { } is in it. |
| ShellQuoting.QuotedText | agents/adk_cc/permissions/broadening.py:323-437 | Whatever stands in single quotes, or in double quotes without a backslash, neither splits nor ends a segment; in single quotes it is safe, in double quotes unsafe if and only if $ or ` is in it. |
| ShellQuoting.OpenQuote | agents/adk_cc/permissions/broadening.py:323-437 | A quote opened and never closed is not split, and unsafe. |
| ShellQuoting.EscapedText | agents/adk_cc/permissions/broadening.py:323-437 | A backslash takes the next character with it, separator, quote or unsafe. |
| ShellQuoting.EscapedInQuotes | agents/adk_cc/permissions/broadening.py:323-437 | So it does in double quotes, where an escaped quote does not close. |
| ShellQuoting.SeparatedText | agents/adk_cc/permissions/broadening.py:362-437 | Two plain commands with `&&`, `||`, `|` or `;` between them, spaced or not, are two segments with that separator; none where one is blank. |
| ShellSplit.HasUnsafeMetachars | agents/adk_cc/permissions/broadening.py:323-359 | The scan reports a dangerous character in force in its quote state, or a quote left open, and nothing else. |
| ShellSplit.SegmentScanIsExact | agents/adk_cc/permissions/broadening.py:357-359 | On a segment just as the splitter made it the open-quote exit never fires: the answer is whether a dangerous character is in force. |
| ShellSplit.ScanFiresIff | agents/adk_cc/permissions/broadening.py:323-359 | On any text the scan fires if and only if a dangerous character is in force or a quote is open at the end. |
| ShellSplit.CleanedScanIsExactIff | agents/adk_cc/permissions/broadening.py:290-313 | On a segment with its harmless redirects taken out, as the broadener scans it, the scan is exact if and only if a character is exposed or the quotes of what is left close. |
| ShellSplit.CleaningCanOpenAQuote | agents/adk_cc/permissions/broadening.py:285-313 | They need not: taking a redirect out between a backslash and a quote leaves a quote open, in a segment whose quotes close. |
| ShellSplit.BroadenRunBash | agents/adk_cc/permissions/broadening.py:298-320 | None when the command cannot be split or a segment has no pattern, otherwise the segments' patterns in order without repeats. |
| Text.DedupInOrder | agents/adk_cc/permissions/broadening.py:308-320 | Of two patterns the one met first stays first. |
| ShellSplit.NoPatternNoResult | agents/adk_cc/permissions/broadening.py:309-317 | One segment that cannot be broadened refuses the whole command. |
| ShellSplit.PatternAt | agents/adk_cc/permissions/broadening.py:308-319 | The k-th pattern is that of the k-th segment. |
| PermissionEngine.FirstMatch | agents/adk_cc/permissions/engine.py:70-82 | Finds a rule of the behaviour that covers the call if there is one. |
| PermissionEngine.WholeCommandRule | agents/adk_cc/permissions/engine.py:144-161 | Finds a rule without content, with a bare `*` or with the exact text if there is one. |
| PermissionEngine.BashAllowMatch | agents/adk_cc/permissions/engine.py:85-141 | The segment loop computes the matcher's answer for every command; when there is one, and which rule it is, is in the three rows after this and the first three of `PermissionVerdicts`. |
| PermissionEngine.CompoundAdmittedIff | agents/adk_cc/permissions/engine.py:123-141 | A command of two or more segments is admitted if and only if each segment is covered by some ALLOW rule or the whole command is granted. |
| PermissionEngine.JoinedAdmittedIff | agents/adk_cc/permissions/engine.py:123-141 | `c sep d` is admitted if and only if all segments of both are covered or the whole is granted: covered commands compose, an uncovered addition withdraws the grant. |
| PermissionEngine.UnsplittableTailNeedsWholeGrant | agents/adk_cc/permissions/engine.py:111-121 | Appending text that cannot be split leaves only a grant of the whole command. |
| PermissionVerdicts.SingleAdmittedIff | agents/adk_cc/permissions/engine.py:111-126 | A command of one segment, or one that cannot be split and has no separator in it, is admitted if and only if some ALLOW rule covers its text. |
| PermissionVerdicts.UnsplittableAdmittedIff | agents/adk_cc/permissions/engine.py:111-121 | One that cannot be split but has a separator in it is admitted if and only if some rule grants the whole text. |
| PermissionVerdicts.AdmittingRuleIs | agents/adk_cc/permissions/engine.py:111-141 | The rule reported is the first ALLOW rule that covers the command, or the first segment where every segment is covered, or else the first that grants the whole. |
| PermissionVerdicts.ClickStores | agents/adk_cc/permissions/broadening.py:224-244 | A click on "Allow always" adds the stripped command and then the patterns that differ from it, as session ALLOW rules on run_bash, and nothing else. |
| PermissionVerdicts.SingleRerunIsAdmitted | agents/adk_cc/permissions/broadening.py:224-244 | After it a command that is not a compound is admitted again wherever the stored text matches it. |
| PermissionEngine.AllowAlwaysCoversRerunIff | agents/adk_cc/permissions/broadening.py:224-244 | After an "Allow always" on a compound, the same command is admitted again if and only if it has no outer whitespace, or an earlier rule or a stored pattern grants it as a whole, or its segments are all covered. |
| PermissionEngine.RerunAlwaysAdmittedIff | agents/adk_cc/permissions/broadening.py:224-244 | It is admitted whatever the rules match if and only if one of the first three holds. |
| PermissionEngine.LeadingSpaceAsksAgain | agents/adk_cc/permissions/broadening.py:224-244 | Any two plain commands joined by `&&` with a space before them: the stripped text is stored, the raw text compared, and without broadened patterns and with rules that cover just their own text the user is asked again. |
| PermissionEngine.SudoAsksAgain | agents/adk_cc/permissions/broadening.py:224-244 | Such a command, written out. |
| PermissionEngine.CommandProtection | agents/adk_cc/permissions/engine.py:324-333 | The loop returns the strictest protection among the paths. |
| PermissionEngine.DecideImpl | agents/adk_cc/permissions/engine.py:265-494 | The sequence of early returns decides as the cascade over the facts of the call and the effective mode, rule matched included; `PermissionVerdicts` says in terms of the call when each verdict falls. |
| PermissionVerdicts.EveryMode | agents/adk_cc/permissions/engine.py:335-379 | In every mode a call is denied when a DENY rule matches, a path it names is secret, or it is catastrophic and not let through; short of that, a read-only command that no ASK rule and no guarded path is about is allowed. |
| PermissionVerdicts.PlanVerdict | agents/adk_cc/permissions/engine.py:381-398 | Past those, plan mode on a tool that is not read-only denies if and only if the call is not a read-only command, and never asks. |
| PermissionVerdicts.DefaultVerdict | agents/adk_cc/permissions/engine.py:265-494 | Default, and plan on a read-only tool: denied if and only if refused in every mode; asked if and only if past those and the call is risky, guarded or an edit that no rule lets through. |
| PermissionVerdicts.AcceptEditsVerdict | agents/adk_cc/permissions/engine.py:265-494 | acceptEdits: the same without the edits. |
| PermissionVerdicts.BypassVerdict | agents/adk_cc/permissions/engine.py:265-494 | Bypass, and default and acceptEdits in an isolated sandbox: asked if and only if past those and the call is risky. |
| PermissionVerdicts.DontAskVerdict | agents/adk_cc/permissions/engine.py:265-494 | dontAsk: never asks, and denies exactly what default denies or asks about. |
| PermissionVerdicts.RuleReported | agents/adk_cc/permissions/engine.py:335-494 | Which rule a decision names, for every verdict: the first DENY, the first ASK exactly when it alone is in the way, or the grant exactly when there is one and the mode did not decide. |
| PermissionEngine.RestrictingRuleNeverLoosens | agents/adk_cc/permissions/engine.py:335-494 | Inserting a DENY or ASK rule anywhere never loosens a decision, under allow < ask < deny. |
| PermissionEngine.GrantingRuleNeverTightens | agents/adk_cc/permissions/engine.py:335-494 | Inserting an ALLOW rule anywhere never tightens one, the segment matcher included. |
| PermissionEngine.ModesAreOrdered | agents/adk_cc/permissions/engine.py:265-494 | bypassPermissions, acceptEdits, default, dontAsk: each no stricter than the next, on every call. |
| PermissionEngine.PlanIsLooserIff | agents/adk_cc/permissions/engine.py:381-398 | Plan mode is looser than default exactly on read-only commands, past the floor, that default would prompt for. |
| PermissionEngine.NoEscalationByAppending | agents/adk_cc/permissions/engine.py:85-141 | Appending an uncovered or unsplittable segment to a command that splits, so that the result is catastrophic, dangerous or writes out of scope, is never allowed outside plan mode without a grant of the whole. |
| RefreshStore.RefreshTokenStore.Write | agents/adk_cc/identity/store.py:315-330 | `create` and `update`: the record is replaced and what has expired is dropped. |
| RefreshStore.RefreshTokenStore.Rotate | agents/adk_cc/identity/store.py:332-344 | The compare-and-swap: verdict and new tokens for every case. |
| RefreshStore.RefreshTokenStore.RevokeAllForUser | agents/adk_cc/identity/store.py:346-355 | The loop revokes every live token of the user and writes only if there was one. |
| RefreshService.IdentityService.IssueRefreshToken | agents/adk_cc/identity/service.py:202-209 | Stores one fresh unrevoked token of the configured lifetime. |
| RefreshService.IdentityService.RevokeChain | agents/adk_cc/identity/service.py:243-254 | The walk terminates on any store, linked in cycles or not, and does what the recursive walk does. |
| RefreshService.IdentityService.LostRace | agents/adk_cc/identity/service.py:231-236 | With the record read before the race, which names no successor, nothing is written. |
| RefreshService.IdentityService.RotateRefreshToken | agents/adk_cc/identity/service.py:211-241 | Tokens afterwards and the user granted a new token, for every presented token, including all refusals. |
| RefreshService.IdentityService.RevokeRefreshToken | agents/adk_cc/identity/service.py:256-261 | Logout revokes the presented token if it is stored and live. |
| RefreshService.WalkRevokesTheTip | agents/adk_cc/identity/service.py:243-254 | On linked tokens the walk reaches the end of the family and revokes just its last token. |
| RefreshService.CallKeepsLinks | agents/adk_cc/identity/service.py:202-265 | Every call keeps the families in order: a stored token names its successor, the successor is stored, of the same user and expires no sooner. |
| RefreshService.PruningKeepsLinks | agents/adk_cc/identity/store.py:306-313 | Dropping expired tokens keeps the stored set closed under `rotated_to`. |
| RefreshService.RunKeepsLinks | agents/adk_cc/identity/service.py:202-265 | So does every sequence of calls. |
| RefreshService.ReuseKillsTheFamily | agents/adk_cc/identity/service.py:217-224 | After any run from an empty store, presenting an unexpired token that was rotated leaves no live token in its family. |
| RefreshOutcomes.GrantedIff | agents/adk_cc/identity/service.py:211-241 | A presented token is granted if and only if it is stored, unrevoked and not expired and its user is active; the grant is its user's. |
| RefreshOutcomes.GrantLeaves | agents/adk_cc/identity/service.py:211-241 | A grant revokes the token, names its successor in it, stores the new one for the same user and the configured lifetime, drops what has expired and leaves the rest. |
| RefreshOutcomes.RefusalLeaves | agents/adk_cc/identity/service.py:217-229 | A refusal mints and revives nothing; it writes only for a token reused after rotation or a live one of an inactive user, and of the latter revokes just that token. |
| RefreshOutcomes.RevocationLeaves | agents/adk_cc/identity/service.py:256-265 | Logout revokes that token alone, revoke-all the user's tokens alone. |
| RefreshOutcomes.SpentForGood | agents/adk_cc/identity/service.py:202-265 | A token issued once and no longer live is granted nothing after any run of calls. |
| RefreshOutcomes.RevokedMeansRefused | agents/adk_cc/identity/service.py:256-265 | So after a logout or a revoke-all the tokens concerned are refused, whatever calls come in between. |
| RefreshOutcomes.ReuseIsNoticedIff | agents/adk_cc/identity/service.py:211-241 | After a rotation the new token is good for its lifetime; once the old one is presented again it stays good if and only if the old one had expired by then. |
| RefreshInterleaving.StepSound | agents/adk_cc/identity/service.py:211-265 | Every atomic step of every thread keeps the invariant of the interleaved model. |
| RefreshInterleaving.OneLiveTokenPerFamily | agents/adk_cc/identity/store.py:332-355 | In every interleaving, stale whole-record updates included, a family has at most one unrevoked token. |
| RefreshInterleaving.RevokedForGood | agents/adk_cc/identity/store.py:326-355 | In every interleaving a revoked token is never unrevoked later. |
| RefreshInterleaving.RotatedOnce | agents/adk_cc/identity/store.py:332-344 | In every interleaving each token gets at most one successor. |
| RefreshInterleaving.RevokeAllIsAFence | agents/adk_cc/identity/store.py:332-355 | A token inserted for a user by a rotation after a revoke-all descends from a token created after it. |
| RefreshInterleaving.FencedUserHasNothingLive | agents/adk_cc/identity/service.py:498-504 | Unless a token was created for the user after a revoke-all, none of theirs is live, whatever was in flight. |
| RefreshInterleaving.StandsStill | agents/adk_cc/identity/service.py:211-265 | While other threads move, a thread keeps its place and the records it holds. |
| RefreshInterleaving.LostRaceWritesNothing | agents/adk_cc/identity/service.py:229-236 | A rotation that loses the race writes nothing when it does, and nothing at its next step, which ends it, whatever other threads did in between. |
| RaceExample.LostRaceLeavesTheFamilyLive | agents/adk_cc/identity/service.py:229-236 | A run of two rotations of one token in which the loser is told of the reuse and the family ends with a live token. |
| RefreshRefinement.WalkAlone | agents/adk_cc/identity/service.py:243-254 | A chain-revoking thread running alone ends, having done what the service's walk does. |
| RefreshRefinement.RotationAlone | agents/adk_cc/identity/service.py:211-241 | A rotating thread running alone does to store and history what the service method does in one call. |
| RefreshRefinement.LogoutAlone | agents/adk_cc/identity/service.py:256-261 | A logout thread running alone does what the service method does. |
| Accounts.NormalizedTwice | agents/adk_cc/identity/store.py:29-30 | Normalizing an address twice is normalizing it once, as service and store do in turn. |
| OrgSafety.AnotherAdmin | agents/adk_cc/identity/service.py:512-517 | When the guard lets an active admin go, the tenant has another. |
| OrgSafety.OpKeeps | agents/adk_cc/identity/service.py:317-606 | Every operation keeps addresses unique and normalized, active owners active owners, a tenant's last active admin, and invitations as they are or closed. |
| OrgSafety.RunKeeps | agents/adk_cc/identity/service.py:317-606 | So does every sequence of operations, whoever calls them. |
| OrgSafety.InvitationIsHonoured | agents/adk_cc/identity/service.py:330-384 | Whatever happens between making an invitation and accepting it, the account opened has the address, tenant and role it was made with, and is active. |
| OrgSafety.AcceptedOnce | agents/adk_cc/identity/service.py:368-384 | An accepted invitation opens no second account, whatever happens in between. |
| OrgSafety.RevokedInviteIsDead | agents/adk_cc/identity/service.py:354-359 | A revoked invitation never opens an account again. |
| OrgRights.RoleTracesBack | agents/adk_cc/identity/service.py:317-486 | Over every run, a role that somebody has come to hold, admin included, was given to that account by its registration, by an operation naming it and the role, or by an invitation that stood at first or was made with that role. |
| OrgRights.OwnersRegister | agents/adk_cc/identity/service.py:317-486 | Nobody becomes an owner but by registering, unless a standing invitation offers it or it is the admin role's name. |
| OrgRights.AccountsChangeOnRequest | agents/adk_cc/identity/service.py:317-606 | Password and address of an account change only at its owner's request with the current password; role only by approval or role change in its tenant; status so, or by deactivation with the password; the name by a profile update; the tenant never; each to what was asked. It goes only on its password, or as a pending request rejected in its tenant or superseded. |
| OrgRights.AccountsOpenAsAsked | agents/adk_cc/identity/provider.py:140-207 | An account that is new has the address, password, name, tenant, status and role asked for or offered, an acceptable address nobody else holds, and a password of eight characters or more. |
| OrgRights.InvitesChangeOnRequest | agents/adk_cc/identity/service.py:330-384 | Invitations change only by being made as asked, revoked in their tenant, or accepted. |
| OrgRights.RefusalChangesNothing | agents/adk_cc/identity/service.py:308-606 | An operation that does not answer Done changes nothing, but for a request that provisioning or accepting supersedes. |
| OrgOutcomes.SucceedsIff | agents/adk_cc/identity/service.py:317-606 | When each operation succeeds, in terms of accounts and invitations: the demotion, disabling or removal of an active admin, say, just when the tenant has another. |
| OrgOutcomes.RefusalIs | agents/adk_cc/identity/service.py:317-606 | Which refusal it answers otherwise. |
| OrgOutcomes.DoneIsDone | agents/adk_cc/identity/service.py:317-606 | A success has brought about what was asked. |
| OrgOutcomes.SameAddressIff | agents/adk_cc/identity/store.py:29-30 | Two spellings are one address if and only if they differ in outer whitespace and ASCII case alone. |
| OrgOutcomes.NewPasswordIsTheOne | agents/adk_cc/identity/service.py:537-551 | Once a password is changed a further change succeeds exactly with the new one, whatever else happens in between, while the account is there. |
| OrgOutcomes.RequestThenDecide | agents/adk_cc/identity/service.py:394-410 | A request approved is the account requested, active, with the role given; rejected, everything is as before it. |
| OrgOutcomes.DeactivateThenRestore | agents/adk_cc/identity/service.py:488-591 | A member let back in after deactivating is exactly as before. |
| OrgOutcomes.OneAccountPerAddress | agents/adk_cc/identity/provider.py:140-207 | After one account is registered a second at any spelling of its address is rejected. |
| OrgOutcomes.InviteThenAcceptIff | agents/adk_cc/identity/service.py:330-384 | An invitation just made is accepted if and only if it has not run out, id, password and address are acceptable, and the address is held by nobody but requests it supersedes. |
| OrgService.UserStore.GetByEmail | agents/adk_cc/identity/store.py:90-96 | Finds an account at the normalized address if there is one. |
| OrgService.UserStore.Create | agents/adk_cc/identity/store.py:98-107 | Inserts unless id or address is taken. |
| OrgService.UserStore.SetEmail | agents/adk_cc/identity/store.py:122-131 | Changes the address unless the account is gone or another holds the address. |
| OrgService.IdentityService.Open | agents/adk_cc/identity/provider.py:179-207 | Opens the account, or refuses a malformed or taken address or a short password. |
| OrgService.IdentityService.SupersedePending | agents/adk_cc/identity/service.py:308-315 | Removes exactly the pending request at the address in the tenant. |
| OrgService.IdentityService.Register | agents/adk_cc/identity/provider.py:140-143 | In multi mode opens an active owner and admin in the organisation's tenant, or in a tenant of its own when the organisation has no name; forbidden otherwise. |
| OrgService.IdentityService.RequestAccess | agents/adk_cc/identity/provider.py:145-164 | Opens a pending account without roles in single mode; a taken address gets the same answer and changes nothing. |
| OrgService.IdentityService.ProvisionMember | agents/adk_cc/identity/service.py:317-328 | Opens an active account with a role that can be granted; a request it superseded is gone even when opening fails. |
| OrgService.IdentityService.CreateInvite | agents/adk_cc/identity/service.py:330-348 | Adds an open invitation at the normalized address and removes the request it supersedes; refused for a role that cannot be granted, an empty address or a member's address. |
| OrgService.IdentityService.RevokeInvite | agents/adk_cc/identity/service.py:354-359 | Closes an invitation of the tenant, accepted or not; any other is not found. |
| OrgService.IdentityService.AcceptInvite | agents/adk_cc/identity/service.py:368-384 | Opens the account and closes the invitation, or refuses; a superseded request is gone even when opening the account fails. |
| OrgService.IdentityService.GuardLastAdmin | agents/adk_cc/identity/service.py:512-517 | Counting the active admins listed, refuses if and only if the account is one and every other account is not. |
| OrgService.IdentityService.ApproveAccessRequest | agents/adk_cc/identity/service.py:394-403 | Does to the accounts what the operation does; that it makes a pending account of the tenant active with the role asked for, and when it is refused, is in `OrgRights` and `OrgOutcomes`. |
| OrgService.IdentityService.RejectAccessRequest | agents/adk_cc/identity/service.py:405-410 | Removes a pending account of the tenant, and only a pending one. |
| OrgService.IdentityService.SetMemberRole | agents/adk_cc/identity/service.py:476-486 | Only that account's roles change; refused for an account elsewhere, an owner, and the demotion of the last active admin. |
| OrgService.IdentityService.SetMemberStatus | agents/adk_cc/identity/service.py:488-504 | Only that account's status changes; refused for a request, for disabling an owner and for disabling the last active admin. |
| OrgService.IdentityService.UpdateProfile | agents/adk_cc/identity/service.py:529-535 | Only the name changes. |
| OrgService.IdentityService.ChangePassword | agents/adk_cc/identity/service.py:537-551 | Only the password changes; refused for a wrong current one and a short new one. |
| OrgService.IdentityService.GuardRemovable | agents/adk_cc/identity/service.py:576-582 | Refuses exactly an owner and the last active admin. |
| OrgService.IdentityService.ChangeEmail | agents/adk_cc/identity/service.py:562-574 | Only the address changes; refused for a wrong password, a malformed address and one that another account holds. |
| OrgService.IdentityService.DeactivateAccount | agents/adk_cc/identity/service.py:584-591 | Disables the account on its password, unless it is an owner's or the last active admin's. |
| OrgService.IdentityService.DeleteAccount | agents/adk_cc/identity/service.py:593-606 | Removes the account on its password, unless it is an owner's or the last active admin's. |
| RateLimit.SlidingWindowLimiter.Allow | agents/adk_cc/identity/ratelimit.py:32-43 | True if and only if fewer than `limit` earlier allowed hits of the key lie after now - window; the history grows by this hit just then. |
| RateLimit.SlidingWindowLimiter.MaybePrune | agents/adk_cc/identity/ratelimit.py:45-50 | Dropping stale keys leaves every history as it was. |
| RateLimit.LimiterKeepsBudget | agents/adk_cc/identity/ratelimit.py:25-50 | No half-open window of the configured length ever holds more than `limit` allowed hits of a key. |
| RateLimit.WindowBudget | agents/adk_cc/identity/ratelimit.py:32-43 | The same of any history in which each hit was granted. |
| RateLimit.RestIsCounted | agents/adk_cc/identity/ratelimit.py:37-39 | A trimmed queue is as long as the count over the full history. |
| RateLimit.CountIsSize | agents/adk_cc/identity/ratelimit.py:37-39 | The count is the number of times after the cutoff. |
| RateLimit.HitsFitTheBudget | agents/adk_cc/identity/ratelimit.py:32-43 | Of the hits allowed for a key no more than `limit`, as a set, lie in any half-open window of the configured length. |
| RateLimit.FailureLockout.LockedFor | agents/adk_cc/identity/ratelimit.py:63-77 | Positive if and only if at least one and at least `threshold` failures since the last clear are unexpired; the wait is to the expiry of the oldest of them. |
| RateLimit.FailureLockout.RecordFailure | agents/adk_cc/identity/ratelimit.py:79-86 | The key's history grows by one failure; pruning changes no history. |
| RateLimit.FailureLockout.Clear | agents/adk_cc/identity/ratelimit.py:88-90 | Only the key's history is forgotten. |
| RateLimit.LockedUntil | agents/adk_cc/identity/ratelimit.py:63-77 | Without new failures a key is locked exactly until the m-th failure from the end expires, m being the threshold or one. |
| RateLimit.LockedIff | agents/adk_cc/identity/ratelimit.py:63-77 | A key is locked if and only if it has unexpired failures, and at least `threshold` of them. |
| RateLimit.WaitIsTheOldest | agents/adk_cc/identity/ratelimit.py:75-76 | The wait ends when the oldest unexpired failure expires. |
| RateLimit.LockNeverReturns | agents/adk_cc/identity/ratelimit.py:63-77 | Without a new failure a lock that is gone does not come back. |
| RateLimit.WaitNeverOverstates | agents/adk_cc/identity/ratelimit.py:75-76 | The key is locked throughout the reported wait. |
| RateLimit.WaitIsExactIff | agents/adk_cc/identity/ratelimit.py:75-76 | The wait is exact if and only if the failure whose expiry unlocks the key is as old as the oldest unexpired one; so when exactly `threshold` are unexpired. |
| Pacing.SlotIsTheLargestPush | agents/adk_cc/models/selectable.py:236-240 | Slot k is the largest, over the calls j up to k, of arrival j + (k - j) intervals, with the initial value as a floor. |
| Pacing.SlotsAreSpaced | agents/adk_cc/models/selectable.py:239 | Any two slots are as many intervals apart as claims lie between them. |
| Pacing.UncappedSpacing | agents/adk_cc/models/selectable.py:206-240 | Without a cap, claims are at least the minimum interval apart, whatever arrives when. |
| Pacing.MinuteBudget | agents/adk_cc/models/selectable.py:206-218 | With a cap of rpm calls per minute any half-open minute holds at most n slots, for every whole n from rpm up. |
| Pacing.MinInterval | agents/adk_cc/models/selectable.py:206-218 | Never negative; a positive cap times the interval is a minute. A cap that is set but no positive number means no interval; without one the interval is the minimum given, or none where that is malformed or not positive. |
| Pacing.Pacer.Claim | agents/adk_cc/models/selectable.py:221-243 | The slot claimed is the next of the sequence, never before the arrival; without an interval nothing is claimed. |
| Frontmatter.ParsingAPrintedDocument | agents/adk_cc/docstore/filesystem.py:52-75 | Parsing a printed document with a header gives the header and the body back, whatever lines the body has. |
| Frontmatter.PlainDocumentReadsBackIff | agents/adk_cc/docstore/filesystem.py:52-75 | A document without a header reads back as printed if and only if its text does not open with a fence that is closed further on. |
| Frontmatter.HeaderReadsBackIff | agents/adk_cc/memory/store.py:85-116 | A memory's fields survive the document form if and only if none of topic, type, status and confidence is one a default replaces. |
| Frontmatter.MemoryRoundTripIff | agents/adk_cc/memory/store.py:85-116 | Printing and parsing a memory returns it with its text stripped under exactly that condition. |
| Frontmatter.ClosingFence | agents/adk_cc/docstore/filesystem.py:30-31 | The fence found first is the one printed after the header. |
| MemoryDocuments.StoredItemReadsBackIff | agents/adk_cc/memory/store.py:85-116 | An item of the tiers put into its document and read back is the item with its text stripped, if and only if it has a topic, or no id either, and a confidence other than zero. |
| MemoryDocuments.TierHoldsWhatIsRead | agents/adk_cc/memory/store.py:199-204 | What the model of the tiers holds after a write is what reading the document gives. |

## Left out

- File, lock and JSON input and output, atomic renames and newline translation: a locked store call is one step on a map.
- Hashing, signing, randomness and password hashing: hashes, ids and invitation tokens are fresh values; `password` in an account is what the password check accepts.
- Model calls: the model-backed canonicalizer and synthesizer, fact resolution and compaction; no partition, fixed-point or no-loss result is claimed for an injected one.
- Timestamps are numbers, 0 for the empty one, in place of ISO strings; confidence is in hundredths. A pass takes one wall-clock stamp for all the writes it makes.
- Topics are slugs and a semantic item's id is its topic; `_slugify` is not part of this model.
- The changelog, audit log, notes, creation dates of accounts, reason strings of decisions and source order of rule layers: they do not affect the properties.
- Address normalization lowers ASCII letters only; the address pattern and the organisation slug are any functions.
- Redirect stripping, prefix choice, dangerous-command refusal to broaden, workspace anchors, rule matching, command classification and path resolution: any functions, or not modelled.
- Bootstrap of the first admin, password-reset links, API keys and member listings: they touch accounts only by password, or only read.
- Interleaved versions of the account invariants and of chain revocation: `update` writes back a whole stale record, so those are statements about one call at a time.
- Revoking refresh tokens when an account is disabled or deleted: the call is modelled as the operation `RevokeAll`, not as a step of the account service.
- YAML, and the conversions of header values of unexpected types: any functions, assumed to be inverse to each other on the header at hand; a dump has no line that is a bare fence.
- Floating point rounding, NaN and infinity in limits, windows and intervals: real numbers.
- Wake-up times after a claimed slot, and a pacing interval that changes while running.
- RefreshService.ReuseKillsTheFamily: says nothing of a token presented after its expiry, which the code refuses without looking at its chain.
- Endpoint registry, ABAC policies, search, web and desktop shells: outside these cores.
