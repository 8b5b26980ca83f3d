# letta-deepseek: a Dafny model of the document store and its deterministic helpers

This project models the deterministic core of the letta-deepseek multi-agent system:

- **The documentation store** (`EnhancedDocumentation`). Documents are kept as
  `DOCUMENTATION_<header>: <json>` records in an append-only archival log.
  - A search scans the log, decodes each payload, applies the filter language
    (equality, list membership, the `gt`/`gte`/`lt`/`lte`/`contains`/`in` operators) and
    scores each document with a fixed weighted sum (keyword hits, recency, complexity
    match, category match). It returns the documents best first, using a stable sort.
  - Storing a document writes generated metadata and bumps the version of the
    best-ranked similar document.
- **Memory consolidation** (`MemoryOptimizer`).
  - Decodable documents are grouped by `type_topic`.
  - Every group of two or more is merged into its newest entry, using a recursive
    dictionary merge.
  - One `DOCUMENTATION_MERGED_<key>` record is appended per merged group. Nothing is
    deleted.
- **The agents' text processing**:
  - the category and best-practice extractors;
  - the 30-day reuse rule of `research`;
  - the documented response;
  - the code-fence split of `implement`.
- **The orchestrator's decisions**:
  - the request classifier;
  - the daily optimisation schedule kept in the organisation block;
  - the two-step workflow and its status changes;
  - the responses it prepares.
- **The prompt formatter and reply extractor** of the DeepSeek wrapper.
- **The health monitor**: its bounded metric buffers, the threshold classifiers, the
  error rate and the last-100 latency average.

## How the model is built

- **The archival memory** is a `Records.Archive` with a `log: seq<string>`. Its
  `Insert` appends to the log. Search reads the log as a value.
- **JSON** is the tagged variant `Json.Value`. Serialisation and parsing are not
  modelled. A `Json.Codec` value carries the following routines as total functions,
  and every operation takes it as a parameter:
  - `json.loads`, with `None` where it raises;
  - `json.dumps`;
  - `str()` of a non-string;
  - `datetime.fromisoformat`, in whole seconds;
  - `str(float(v) + 0.1)`.
- **The clock** is a parameter: `now` in seconds, and `stamp` for the printed time.
- **Uncaught exceptions.** Exceptions the source does not catch become preconditions.
  Examples: a missing `": "` in a documentation record; a missing metadata field read
  while scoring; timestamps of a merged group that cannot be compared. Each operation's
  `...Defined` or `...able` predicate names what it needs.
- **Filters** are evaluated with Python's comparison rules on decoded values. A check
  that raises `TypeError` (say `gt` between a string and a number) is a `None` outcome
  of `Filters.MatchesFilters`, not a precondition.
- **Loops.** Where the source works step by step, the model is a method with a loop
  proved against a specification function. This covers:
  - the search scan;
  - `_matches_filters`;
  - `_assess_complexity`;
  - both loops of `consolidate_memory`;
  - `_recursive_merge`;
  - `_merge_entries`;
  - the extractors;
  - the code-fence loop;
  - `_format_messages`;
  - `_execute_workflow`;
  - `record_request`.
- **Objects.** Objects whose fields the source updates are classes: the archive, the
  workflow, the organisation block and the health monitor.

Where the code and its description disagree, the model follows the code.

- `_merge_entries` sorts by, and bumps, the top-level `timestamp` and `version`.
- `store_documentation` writes those two fields under `metadata`.
- So a group holding a document written by `store_documentation` cannot be merged:
  the sort key raises `KeyError`. `Consolidation.StoredDocumentsNotMergeable` states
  this.

## Model

| member | source | states |
|---|---|---|
| Filters.FirstDifference | components/documentation.py:177-180 | the first index at which two lists differ under `==`: every earlier pair is equal, and the pair there differs |
| Filters.EqualsSymmetric | components/documentation.py:164-171 | Python's `==` on decoded values is symmetric |
| Filters.FirstDifferenceSymmetric | components/documentation.py:177-180 | the first difference of two lists does not depend on their order |
| Filters.CompareDefined | components/documentation.py:177-180 | a comparison raises `TypeError` exactly on operands that are not orderable (numbers and booleans together, strings together, lists whose first difference is orderable) |
| Filters.OrderableSymmetric | components/documentation.py:177-180 | operands are orderable in either order or in neither |
| Filters.CompareTotal | components/documentation.py:177-180 | on orderable operands, `x <= y` is `not y < x`, and it is `x < y or x == y` |
| Filters.CheckCondition | components/documentation.py:174-185 | `contains` raises exactly for a string against a non-string; otherwise it holds exactly for a substring of a string or an element (under `==`) of a list; `in` never raises and holds exactly when the target is a list with an element equal to the value |
| Filters.UnknownOperatorIsEquality | components/documentation.py:185 | an operator outside the table falls back to `x == y` |
| Filters.OrderingRaises | components/documentation.py:177-180 | `gt`, `gte`, `lt` and `lte` raise exactly on operands that are not orderable |
| Filters.OrderOperatorsAgree | components/documentation.py:177-180 | on orderable operands, `gt` is `lt` reversed, `gte` is the negation of `lt`, `lte` the negation of `gt`, and `gte` is `gt` or equal |
| Filters.HasKey | components/documentation.py:155-159 | `key in metadata` is key membership of a dictionary, and never raises on a dictionary, list or string; it raises on any other metadata |
| Filters.AllConditions | components/documentation.py:166-168 | the `all(...)` over the conditions is true exactly when every condition holds; false only if some condition is false; raises only if some condition raises |
| Filters.AllConditionsHold | components/documentation.py:166-168 | every condition holds exactly when none can be false and none can raise |
| Filters.CheckKey | components/documentation.py:158-171 | one filter entry passes exactly when its check can neither fail nor raise; it rejects only if the key is missing or the entry's check fails, and raises only if a check raises |
| Filters.MatchesFilters | components/documentation.py:150-172 | true exactly when the document has no filters against it, or no entry's check can fail or raise; false only if some check can fail, and a `TypeError` only if some check can raise, whatever the dictionary order |
| Filters.DefinedOutcome | components/documentation.py:150-172 | where no check can raise, `Matches` holds exactly when no check fails: with filters, exactly when the metadata is a dictionary holding every filter key and every entry holds |
| Filters.MissingKeyRejects | components/documentation.py:159-160 | a filter key missing from dictionary metadata makes the filter fail |
| Filters.ComparisonExamples | components/documentation.py:177-183 | `True > 0`, `[1] > []`, `[1, "a"] < [1, 2]` raises, and `1 in [True]` |
| Filters.MatchesFiltersExamples | tests/test_documentation.py:82-101 | the test's matching filter, non-matching filter and double filter give true, false and true |
| Filters.FailOrRaise | components/documentation.py:158-168 | a key with a false condition and a raising one can both fail and raise, so the document never matches |
| Versions.IncrementVersion | components/documentation.py:72-78 | a version that does not split into exactly two parts becomes `1.1` |
| Versions.VersionParts | components/documentation.py:75 | `major.minor` with dot-free parts splits back into exactly `[major, minor]` |
| Versions.IncrementBumpsMinor | components/documentation.py:75-76 | `M.n` with `int(n)` defined becomes `M.` followed by `str(int(n)+1)`, with `M` kept verbatim |
| Versions.IncrementRejectsMinor | components/documentation.py:74-78 | a minor part that is not an integer literal gives `1.1` |
| Versions.IncrementNeedsOneDot | components/documentation.py:75-78 | any version without exactly one dot gives `1.1` |
| Versions.IncrementNumbered | components/documentation.py:72-78 | `M.str(n)` becomes `M.str(n+1)` for every integer `n` (so `1.0` gives `1.1` and `2.5` gives `2.6`) |
| Versions.IncrementExampleInvalid | tests/test_memory_manager.py:59-66 | `invalid` becomes `1.1` |
| Complexity.Indicators | components/documentation.py:127-140 | the three indicator lists, every word non-empty |
| Complexity.IndicatorCountZero | components/documentation.py:144-145 | a level's summed `count` is zero exactly when none of its words occurs in the text |
| Complexity.ComplexityOf | components/documentation.py:143-148 | `medium` when all counts are zero; otherwise a level with the largest count and no earlier level (high, medium, low) tying it |
| Complexity.AssessComplexity | components/documentation.py:122-148 | the loop filling `scores` and the first-maximum choice return `ComplexityOf` of the lower-cased serialised content |
| Complexity.FirstMaximum | components/documentation.py:148 | `max` over the score table returns the first level in table order with the largest count |
| Complexity.NoIndicatorIsMedium | components/documentation.py:148 | a text containing no indicator of any level is `medium` |
| Complexity.IndicatorOccurs | components/documentation.py:145-148 | an occurring indicator makes its level's count positive, so the default `medium` no longer applies |
| Complexity.FirstMaximalIsUnique | components/documentation.py:148 | the tie-broken maximum is unique, so the loop and the specification agree |
| Scoring.KeywordHits | components/documentation.py:101 | the number of query terms contained in the text: at most the number of terms, all of them exactly when each term occurs, none exactly when no term occurs |
| Scoring.KeywordScore | components/documentation.py:101 | the keyword share lies in [0, 1] |
| Scoring.Recency | components/documentation.py:104-105 | `max(0, 1 - days/365)` is non-negative, at most 1 for a non-negative age, and 0 from 365 days on |
| Scoring.RecencyNonIncreasing | components/documentation.py:105 | an older document never has a larger recency |
| Scoring.ComplexityMatch | components/documentation.py:108-109 | the term is 1 exactly when the stored complexity equals the query's level label, and 0.5 otherwise |
| Scoring.CategoryMatch | components/documentation.py:112 | the term is 1 exactly when some query term is `in` the category, and 0.5 otherwise |
| Scoring.Relevance | components/documentation.py:95-120 | with weights 0.4/0.3/0.2/0.1 and a document not dated in the future, the score lies in [0.15, 1] |
| Scoring.AgeNonNegative | components/documentation.py:104 | the whole-day age is non-negative exactly when the timestamp is not after `now` |
| Json.DaysBetween | components/documentation.py:104 | `timedelta.days` is the floor of the span in days: the span lies in `[d, d + 1)` days |
| Json.DaysAtLeast | components/documentation.py:104 | `timedelta.days >= n` holds exactly when at least `n` days' worth of seconds have passed |
| Records.DecodeRecord | components/documentation.py:57-61 | a record without the `DOCUMENTATION_` prefix yields nothing; a documentation record yields the decode of the text after the first `": "` |
| Records.RecordText | components/documentation.py:48 | the written record carries the `DOCUMENTATION_` prefix |
| Records.RecordRoundTrip | components/documentation.py:48-61 | a record written with a header free of `": "` is framed and reads back as the decode of exactly its payload |
| Records.Archive.constructor | components/documentation.py:54 | the archive starts with the given log |
| Records.Archive.Insert | components/memory_manager.py:61-64 | `insert_archival_memory` appends one record and removes nothing |
| Retrieval.ByScoreOrdersWeakly | components/documentation.py:69 | descending comparison of scores is a strict weak order, as the sort needs |
| Retrieval.Scored | components/documentation.py:56-66 | one record contributes at most one (document, score) pair |
| Retrieval.Contributions | components/documentation.py:56-66 | the per-record contributions, one per record in log order |
| Retrieval.CandidatesAppend | components/documentation.py:56-66 | scanning two parts of a log separately collects the same candidates as scanning the whole log, for any scoring |
| Retrieval.RecordContribution | components/documentation.py:56-66 | a record contributes exactly its own candidate, in its place in the scan |
| Retrieval.CandidatesSkipUndecodable | components/documentation.py:57-58 | a non-documentation record or an undecodable payload contributes nothing to the scan |
| Retrieval.CandidatesFromLog | components/documentation.py:56-64 | every collected candidate comes from a documentation record whose payload decodes to it, which matches the filters and carries its own score |
| Retrieval.SearchDocumentation | components/documentation.py:51-70 | the scan loop, the stable sort and the projection return `Search`, the best-first documents of the log |
| Retrieval.SearchSkipsUndecodable | components/documentation.py:57-66 | removing a non-documentation or undecodable record from the log leaves the results unchanged |
| Retrieval.SearchResultsMatch | components/documentation.py:56-64 | every result is the decoded payload of a documentation record of the log and satisfies `_matches_filters` |
| Retrieval.SearchFindsMatching | components/documentation.py:60-64 | every document of the log that decodes and matches is among the results |
| Retrieval.RankedBestFirst | components/documentation.py:69-70 | the ranking is a permutation of the candidates in non-increasing score order, and the results are its documents |
| Retrieval.WithScoreIsTied | components/documentation.py:69 | the candidates with a given score are exactly those the sort treats as tied with it |
| Retrieval.RankedStable | components/documentation.py:69 | documents with equal scores keep the order in which the scan found them |
| Retrieval.SearchHead | components/documentation.py:69-70 | the first result is the first document found with the highest score |
| Retrieval.FirstsHead | components/documentation.py:69-70 | the head of a best-first ranking is the first candidate with the highest score |
| StableSort.SortPermutes | components/documentation.py:69 | the sort returns a permutation of its input |
| StableSort.SortSorted | components/documentation.py:69 | under a strict weak order, no element of the result goes ahead of one listed before it |
| StableSort.SortStable | components/memory_manager.py:40 | the elements tied with any given one keep their input order (stability) |
| StableSort.SortHeadIsFirstMaximal | components/memory_manager.py:40-41 | the head of the result is the first input element that nothing goes ahead of |
| Documentation.FreshFields | components/documentation.py:18-31 | the generated metadata: version `1.0`, the given timestamp, category and complexity label; a `previous_version` only if the caller supplied one |
| Documentation.VersionedMetadata | components/documentation.py:39-44 | with a similar document the version becomes its bumped version and `previous_version` its version; without one the version stays `1.0`; timestamp, category and complexity are the generated ones |
| Documentation.StoredVersion | components/documentation.py:16-44 | the versioning rule for the complexity `_assess_complexity` assigns to the content |
| Documentation.StoredKeepsMetadata | components/documentation.py:21-22 | the caller's metadata entries that the store does not generate are written unchanged |
| Documentation.StoredRecord | components/documentation.py:46-49 | the stored text is a `DOCUMENTATION_` record |
| Documentation.StoreDocumentation | components/documentation.py:16-49 | appends exactly one record, the serialised document with the versioned metadata; the header is `<type>_<category>`, and the similar documents are the ranked search for the serialised content within its category |
| Documentation.StoredRecordReadsBack | components/documentation.py:48-61 | the stored record reads back, through the search's decoding, as the decode of the stored document's serialisation |
| Consolidation.Dedup | components/memory_manager.py:57 | no duplicates, and exactly the elements of the input |
| Consolidation.ListUnion | components/memory_manager.py:56-57 | `list(set(a + b))` is duplicate-free and holds exactly the elements of either list |
| Consolidation.Merge | components/memory_manager.py:50-57 | the key set after the merge is the union of both key sets |
| Consolidation.RecursiveMerge | components/memory_manager.py:50-57 | the loop over the incoming keys, with recursion on nested dictionaries, produces `Merge` |
| Consolidation.MergeKeepsBase | components/memory_manager.py:54-57 | a key with a conflict that is neither two dictionaries nor two lists is left as the base has it |
| Consolidation.MergedAll | components/memory_manager.py:51 | once every incoming key is handled, the loop's dictionary is the merge |
| Consolidation.MergeTakesMissing | components/memory_manager.py:52-53 | a key missing from the base takes the incoming value; a key only in the base keeps its own |
| Consolidation.MergeBaseWins | components/memory_manager.py:54-57 | on a conflict that is not two dictionaries or two lists, the base (newest) value wins |
| Consolidation.MergeLists | components/memory_manager.py:56-57 | two lists become a duplicate-free list of the elements of either |
| Consolidation.MergeNested | components/memory_manager.py:54-55 | two dictionaries are merged by the same rules one level down |
| Consolidation.MergeDisjoint | components/memory_manager.py:51-53 | dictionaries with no common key are put side by side |
| Consolidation.MergeNothing | components/memory_manager.py:51 | merging an empty dictionary changes nothing |
| Consolidation.KeyLessIsPython | components/memory_manager.py:40 | among numbers (booleans included) and among strings, the sort-key order is Python's `<` |
| Consolidation.KeyNotLessTransitive | components/memory_manager.py:40 | "not less than" on sort keys is transitive, as the sort needs |
| Consolidation.NewerFirstOrdersWeakly | components/memory_manager.py:40 | the reversed timestamp comparison is a strict weak order |
| Consolidation.ByRecency | components/memory_manager.py:40 | the sorted entries are the group's entries, with the same count |
| Consolidation.Newest | components/memory_manager.py:41 | the base entry is one of the group |
| Consolidation.NewestIsFirstLatest | components/memory_manager.py:40-41 | the base is the first entry in log order with the latest timestamp: none is later and every earlier one is strictly earlier |
| Consolidation.MergeEntries | components/memory_manager.py:39-48 | for a group with top-level timestamps that are all numbers or all strings (any timestamp for a single entry), sorting, the merge loop and the field updates return `MergedEntry` |
| Consolidation.MergedEntryFields | components/memory_manager.py:46-48 | the merged entry has the base's keys plus `merged_from`, which equals the group size; its version is the bumped base version; its other fields are the base's |
| Consolidation.MergeAllKeys | components/memory_manager.py:43-44 | every content key of the base and of every other entry survives the merge, and no other key appears |
| Consolidation.DocumentOf | components/memory_manager.py:26-32 | a record contributes a keyable document or nothing |
| Consolidation.Documents | components/memory_manager.py:25-32 | the documents of the decodable documentation records, in log order, all keyable |
| Consolidation.GroupKeysOfDocuments | components/memory_manager.py:29-30 | the group keys are distinct and are exactly the `type_topic` keys of the documents |
| Consolidation.GroupOfMembers | components/memory_manager.py:29-30 | a group holds exactly the documents with its key, and it is empty exactly when the key never occurs |
| Consolidation.GroupAppend | components/memory_manager.py:30 | appending a document to its key's list, creating the key when new, keeps `keys` and `groups` equal to the grouping of the documents so far |
| Consolidation.AppendToGroup | components/memory_manager.py:29-30 | the `defaultdict` append yields the grouping extended by the document |
| Consolidation.GroupDocuments | components/memory_manager.py:21-32 | the first loop leaves `keys` and `groups` equal to the grouping of the log's documents |
| Consolidation.DocumentsFromLog | components/memory_manager.py:25-32 | a document is grouped exactly when some documentation record of the log decodes to it |
| Consolidation.MergedRecord | components/memory_manager.py:59-64 | the merged record carries the `DOCUMENTATION_` prefix |
| Consolidation.UpdateMemoryEntries | components/memory_manager.py:59-64 | appends exactly `DOCUMENTATION_MERGED_<key>: <json>` and nothing else |
| Consolidation.MergedKeys | components/memory_manager.py:34-35 | the keys written for are exactly those whose group has two or more documents |
| Consolidation.Written | components/memory_manager.py:35-37 | one record for a group of two or more, none for a single document |
| Consolidation.WritesOfGrouping | components/memory_manager.py:34-37 | writing over the groups of the grouping produces exactly the records `Inserted` describes |
| Consolidation.ConsolidateGroup | components/memory_manager.py:35-37 | a group of two or more appends its merged record; a single document appends nothing |
| Consolidation.WriteMergedGroups | components/memory_manager.py:34-37 | the second loop appends the writes of the groups in key order |
| Consolidation.ConsolidateMemory | components/memory_manager.py:21-37 | the log afterwards is the original log followed by the consolidation records: originals are never removed |
| Consolidation.InsertedPerGroup | components/memory_manager.py:34-37 | the inserts correspond one to one, in order, to the groups of two or more, each insert being that group's merged record |
| Consolidation.MergedKeysDistinct | components/memory_manager.py:34 | no group is merged twice |
| Consolidation.MergedGroupsOfLog | components/memory_manager.py:21-37 | the merged groups are exactly the groups of two or more documents of the log, each once |
| Consolidation.MergedRecordReadsBack | components/memory_manager.py:59-64 | a merged record whose key holds no `": "` reads back as the merged entry's serialisation |
| Consolidation.StoredDocumentsNotMergeable | components/memory_manager.py:40 | a document written by `store_documentation` has no top-level timestamp, so no group containing it can be merged |
| ResearchAgent.ExtractCategories | components/agents.py:109-123 | the result is duplicate-free, lists a category exactly when one of its indicators occurs in the lower-cased text, and only the five table names |
| ResearchAgent.IndicatedIsKnown | components/agents.py:111-117 | only the five table names can be indicated |
| ResearchAgent.OptimizationIndicatesTwo | components/agents.py:112-121 | `optimization` yields both `algorithm` and `performance` |
| ResearchAgent.UnmentionedNotIndicated | components/agents.py:119-121 | a category none of whose indicators occurs is not listed |
| ResearchAgent.ExtractBestPractices | components/agents.py:125-132 | the loop returns the stripped lines, split on newline, that mention an indicator, and at most one per line |
| ResearchAgent.PracticesAppend | components/agents.py:128-131 | the extraction keeps line order: consecutive blocks give concatenated results |
| ResearchAgent.PracticesBound | components/agents.py:128-131 | at most one practice per line |
| ResearchAgent.PracticesMembers | components/agents.py:128-131 | a practice is exactly the stripped form of some line mentioning an indicator |
| ResearchAgent.RecentDocs | components/agents.py:56-57 | every kept document is from the results and under 30 whole days old |
| ResearchAgent.FirstRecent | components/agents.py:56-59 | there is no recent document exactly when no result is under 30 days old; otherwise the first is the earliest-ranked such result |
| ResearchAgent.PrepareDocumentedResponse | components/agents.py:134-143 | exactly the seven keys; source `documentation`; query, timestamp, results and summary copied; categories and best practices copied when present, and `[]` otherwise |
| ResearchAgent.ReuseFrom | components/agents.py:55-59 | a reused response always has source `documentation` |
| ResearchAgent.ReusedResponse | components/agents.py:51-59 | stored research is reused only with documentation storage enabled |
| ResearchAgent.ReuseIffRecent | components/agents.py:55-59 | stored research is reused exactly when some result is under 30 days old, and the response is built from the first such result |
| ResearchAgent.NoStorageNoReuse | components/agents.py:53 | without documentation storage nothing is reused |
| CodingAgent.Snippet | components/agents.py:224-226 | a snippet is no longer than its segment and has no whitespace at either end |
| CodingAgent.CodePieces | components/agents.py:222-226 | one piece per odd-indexed segment |
| CodingAgent.FenceCode | components/agents.py:222-226 | the `code +=` loop concatenates the snippets of the odd-indexed segments, each followed by a blank line; it is empty exactly when there is no fenced segment |
| CodingAgent.Implement | components/agents.py:213-233 | explanation and code are `ExplanationOf` and `CodeOf` of the answer; the findings and the stamp are passed through |
| CodingAgent.ExplanationBeforeFence | components/agents.py:218-220 | with a fence, the explanation is the stripped text before the first fence |
| CodingAgent.StripBlock | components/agents.py:224-230 | a snippet followed by its blank line strips back to the snippet |
| CodingAgent.OneBlock | components/agents.py:218-230 | an answer with one fenced block yields exactly that block's snippet, with a leading `python` tag dropped |
| CodingAgent.CodeOf | components/agents.py:218-230 | the code is `None` exactly when the answer has no fence; otherwise it has no whitespace at either end |
| Orchestrator.AssessRequestComplexity | components/orchestrator.py:140-152 | `high` exactly when a high indicator occurs; `low` exactly when only low indicators occur among the three rows; `medium` otherwise, including when nothing matches |
| Orchestrator.ShouldOptimize | components/orchestrator.py:115-126 | due when no optimisation is recorded; otherwise due exactly when at least a day's worth of seconds has passed |
| Orchestrator.RecordOptimizationAsWritten | components/orchestrator.py:131-133 | the rewrite as written succeeds exactly when the context already holds a dictionary `system_context` |
| Orchestrator.InitialOptimizationFails | components/orchestrator.py:18-30 | on the block the constructor writes, optimisation is due and the rewrite as written raises |
| Orchestrator.RecordOptimization | components/orchestrator.py:131-133 | the corrected rewrite adds `system_context` if missing, keeps every other entry, and records the time |
| Orchestrator.RecordOptimizationAgrees | components/orchestrator.py:131-133 | where the system context exists, the corrected rewrite equals the one written |
| Orchestrator.OptimizationDueDaily | components/orchestrator.py:115-133 | after recording an optimisation, the next one is due exactly one day later |
| Orchestrator.OrganizationBlock.constructor | components/orchestrator.py:18-30 | the block starts with name, purpose and capabilities, and no system context |
| Orchestrator.OptimizeSystem | components/orchestrator.py:128-136 | records the time in the block with the corrected rewrite, then appends the consolidation records to the archive |
| Orchestrator.SetStatus | components/orchestrator.py:193 | one step's status changes and everything else is kept |
| Orchestrator.ExecutedStatuses | components/orchestrator.py:193-206 | from a fresh workflow, research ends `completed`; implementation ends `completed` exactly when research returned something, and otherwise stays `pending` |
| Orchestrator.PrepareResponse | components/orchestrator.py:210-217 | exactly four keys; the workflow id is copied; explanation, code and summary come from the results, and default to `""` |
| Orchestrator.ImplementationDict | components/agents.py:228-233 | the dictionary `implement` returns carries its explanation, and its code or `None` |
| Orchestrator.Workflow.constructor | components/orchestrator.py:164-186 | two pending steps, research then implementation; the complexity is the request's; the priority is `normal` |
| Orchestrator.Executed | components/orchestrator.py:193-206 | the steps keep their number, kinds and agents, and every step after the second is untouched; research ends `completed`; implementation ends `completed` when research returned something and keeps its status otherwise |
| Orchestrator.Workflow.Execute | components/orchestrator.py:188-208 | the steps end as `Executed` states; the response has the four keys, the workflow id and the research summary; when research returned something, the explanation is the implementation's and the code is its code or `None`; otherwise both are `""` |
| Orchestrator.PrepareDocumentedResponse | components/orchestrator.py:154-162 | exactly five keys; source `documentation`; the document id or `None`; explanation, code and research summary are the content's when present, and `""` otherwise |
| Orchestrator.ProcessRequest | components/orchestrator.py:90-104 | a non-empty search (filtered by the request's complexity) answers from its first document and runs no workflow; otherwise the fresh workflow's response: the four keys, the new id, the research summary, and the implementation's explanation and code when research returned something, `""` otherwise |
| DeepSeekWrapper.Rendering | components/deepseek_wrapper.py:36-42 | a message renders to text exactly when its role is `system`, `user` or `assistant`; an assistant message starts with the `Assistant: ` cue |
| DeepSeekWrapper.Renderings | components/deepseek_wrapper.py:36-42 | one rendering per message, in order |
| DeepSeekWrapper.FormatMessages | components/deepseek_wrapper.py:33-44 | the prompt is the concatenated renderings followed by `Assistant: ` |
| DeepSeekWrapper.TranscriptAppend | components/deepseek_wrapper.py:36-42 | the transcript of consecutive message lists is the concatenation of their transcripts |
| DeepSeekWrapper.EmptyTranscript | components/deepseek_wrapper.py:35-44 | no messages give exactly `Assistant: ` |
| DeepSeekWrapper.UnknownRoleSilent | components/deepseek_wrapper.py:36-42 | a message with any other role contributes nothing |
| DeepSeekWrapper.ExtractResponse | components/deepseek_wrapper.py:46-50 | without the cue the reply is the stripped text |
| DeepSeekWrapper.CueUnbordered | components/deepseek_wrapper.py:49 | the cue cannot overlap itself |
| DeepSeekWrapper.ExtractAfterLastCue | components/deepseek_wrapper.py:48-49 | text after the last cue, if it is free of the cue, is returned stripped whatever precedes it |
| DeepSeekWrapper.ExtractAfterPrompt | components/deepseek_wrapper.py:31-49 | a reply free of the cue that follows the formatted prompt is extracted as exactly its stripped text |
| HealthCheck.MemoryStatus | app/health_check.py:97-103 | `critical` exactly above 95, `warning` exactly in (85, 95], `healthy` exactly at 85 or below |
| HealthCheck.ApiStatus | app/health_check.py:105-111 | `critical` exactly above 5 s, `warning` exactly in (2, 5], `healthy` exactly at 2 or below |
| HealthCheck.SystemStatus | app/health_check.py:113-119 | `critical` exactly when cpu or disk exceeds 90; `warning` exactly when neither does but one exceeds 75; `healthy` exactly when both are at most 75 |
| HealthCheck.OverallStatus | app/health_check.py:35-46 | `critical` exactly when memory exceeds 95 or the error rate exceeds 0.2; `healthy` exactly when memory is at most 85 and the error rate at most 0.1 |
| HealthCheck.MemoryStatusMonotone | app/health_check.py:97-103 | a higher reading never has a better status |
| HealthCheck.Last | app/health_check.py:135 | `s[-n:]` for `n > 0` keeps the last `min(n, len(s))` entries in order |
| HealthCheck.AppendAndTrim | app/health_check.py:131-135 | after appending and trimming, the new entry is last and the rest are the most recent older entries |
| HealthCheck.SumBounds | app/health_check.py:66 | a sum of values within bounds lies within the count times those bounds |
| HealthCheck.AverageLatency | app/health_check.py:65-68 | the average is 0 when nothing is recorded |
| HealthCheck.AverageWithinWindow | app/health_check.py:65-68 | the average lies between the least and greatest of the last 100 entries |
| HealthCheck.MeanBounds | app/health_check.py:66 | a total within `n` times two bounds gives a mean within them |
| HealthCheck.AverageIgnoresOlder | app/health_check.py:66 | entries older than the last 100 play no part in the average |
| HealthCheck.RecentErrors | app/health_check.py:91-92 | the recent errors are at most all recorded errors |
| HealthCheck.HealthMonitor.constructor | app/health_check.py:8-15 | empty buffers, no requests, no optimisation recorded |
| HealthCheck.HealthMonitor.RecordRequest | app/health_check.py:128-144 | the request count grows by one; the latency buffer is the last 1000 of the old buffer plus the latency; errors grow (capped at 1000) only when `error`; the buffers stay bounded |
| HealthCheck.HealthMonitor.RecordMemoryOptimization | app/health_check.py:146-148 | records the time and changes nothing else |
| HealthCheck.HealthMonitor.ErrorRate | app/health_check.py:89-95 | 0 without requests, and always within [0, 1] |
| HealthCheck.HealthMonitor.AverageApiLatency | app/health_check.py:63-68 | the monitor's average is 0 with an empty buffer |
| HealthCheck.OptimizationRecorded | app/health_check.py:51-54 | after an optimisation, memory optimisation is needed again exactly once more than a day has passed |
| Text.IsSpaceCases | components/agents.py:131 | on ASCII, `str.isspace` is the space, `\t` to `\r` and `\x1c` to `\x1f`; beyond ASCII, `\u00a0` and `\u3000` are whitespace and `\u200b` and `\ufeff` are not |
| Text.LowerCases | components/documentation.py:97-98 | same length; no upper-case ASCII letter is left; upper-case letters become lower-case ones and every other character is kept |
| Text.LowerIdempotent | components/documentation.py:97-98 | lower-casing twice equals lower-casing once |
| Text.LowerAppend | components/documentation.py:98 | lower-casing distributes over concatenation |
| Text.FindFrom | components/documentation.py:61 | the first occurrence at or after a position, or none |
| Text.FindIffContains | components/documentation.py:61 | `find` succeeds exactly when `in` holds |
| Text.Split | components/documentation.py:75 | `split` always returns at least one part |
| Text.JoinSplit | components/agents.py:219 | joining the parts with the separator gives back the text |
| Text.SplitWithoutSeparator | components/agents.py:218-219 | without the separator, the split is the text alone |
| Text.SplitWithSeparator | components/agents.py:218-220 | with the separator, the first part is the text before its first occurrence, and there are at least two parts |
| Text.LastPartAfterSeparator | components/deepseek_wrapper.py:49 | the last part after an unbordered separator, followed by separator-free text, is that text |
| Text.AfterFirstAround | components/documentation.py:61 | `split(sep, 1)[1]` of `x + sep + r`, with `x` free of `sep`, is `r` |
| Text.Count | components/documentation.py:145 | the count is positive exactly when the pattern occurs |
| Text.SplitLength | components/documentation.py:75 | `split` gives one more part than `count` |
| Text.CountChar | components/documentation.py:75 | counting a one-character pattern counts that character |
| Text.StripLeft | components/agents.py:131 | removes exactly the leading whitespace |
| Text.StripRight | components/agents.py:131 | removes exactly the trailing whitespace |
| Text.StripTrims | components/agents.py:131 | no longer than the text, no whitespace at either end, and empty exactly when the text is all whitespace |
| Text.StripUnpadded | components/agents.py:131 | a text with no whitespace at either end is its own strip |
| Text.Words | components/documentation.py:97 | `split()` yields non-empty words |
| Text.NatToString | components/documentation.py:76 | `str(n)` is a non-empty digit string |
| Text.ParseIntShape | components/documentation.py:76 | `int(s)` succeeds only on a stripped text starting with a digit, or with a sign and a digit; a minus sign gives a value of at most 0, no sign one of at least 0 |
| Text.ParseIntToString | components/documentation.py:76 | `int(str(n)) == n` for every integer |
| Text.StrLessIrreflexive | components/memory_manager.py:40 | no string is less than itself |
| Text.StrLessAsymmetric | components/memory_manager.py:40 | of two strings, at most one is less than the other |
| Text.StrLessTotal | components/memory_manager.py:40 | string comparison is total |
| Text.StrLessTransitive | components/memory_manager.py:40 | string comparison is transitive |
| Text.StrNotLessTransitive | components/memory_manager.py:40 | "not less than" on strings is transitive, as the sort needs |

## Left out

- **Outside calls.** Tavily search, LLM calls (`send_message`, `DeepSeekWrapper.generate` with torch), agent and block creation, and the prompts themselves are not modelled. The agents' results reach the model as inputs: `research` and `impl` of `Workflow.Execute`, and the model's answer `content` of `CodingAgent.Implement`.
- **The rest of `research`.** `research` after the reuse check is not modelled: the web search, the analysis, and storing the findings (components/agents.py:61-107). It runs only on outside results. Its categories and practices are `ExtractCategories` and `ExtractBestPractices`.
- **Missing helpers.** `_extract_keywords`, `_categorize_content` and `_detect_language` are not defined in the repository. Together with the float-valued `_calculate_readability`, they reach `Documentation.StoreDocumentation` as the `Derived` parameter.
- **Other misc. helpers.** `_store_workflow_results`, `_cleanup_old_workflows` and `_update_metrics` are not defined either.
  - `Orchestrator.ProcessRequest` ends at the workflow response. It leaves out the store step and the optimisation check that follow, which `Orchestrator.OptimizeSystem` and `Orchestrator.ShouldOptimize` model on their own.
  - `Orchestrator.OptimizeSystem` leaves out the two undefined cleanup calls.
- **Serialisation.** JSON syntax, `json.dumps`, `json.loads`, `datetime.fromisoformat` and `str()` of non-strings are parameters of the `Codec`. Dictionary order is lost, because a `map` has none. It changes the serialised text the codec produces, and it decides which check `_matches_filters` meets first: when one check of a document fails and another raises, Python returns false or raises depending on the order. `Filters.MatchesFilters` states what holds in every order (`Filters.FailOrRaise` shows such a document).
- **Float arithmetic.** `str(float(v) + 0.1)` is the codec's `bumpFloat`.
  - A `ValueError` from `float(v)` is not modelled: `Consolidation.MergedEntry` needs only that `version` is present.
  - Relevance, averages and thresholds use real arithmetic, not IEEE floats.
  - `_get_uptime` is not modelled.
- **The clock.** The clock is a parameter in whole seconds, so sub-second differences are lost. `HealthMonitor.NeedsOptimization` and `RecentErrors` compare whole-second spans against a day and an hour.
- **Host readings.** Host readings (`psutil` memory, cpu, disk, `available_mb`) are parameters of the classifiers. `check_health` and the dictionaries of the `_check_*` methods are not modelled beyond the figures they report.
- **HTTP and UI.** The async plumbing, the FastAPI endpoints, the UI and the thin `coding_agent.py` wrapper are not modelled.
- Text.LowerCases: `Text.Lower` lower-cases ASCII letters only, while Python's `lower` also maps other letters (`"É".lower() == "é"`).
- Text.ParseInt: only ASCII digits are parsed, while Python's `int` also accepts other Unicode decimal digits (`int("٣") == 3`).
- Versions.IncrementVersion: through `Text.ParseInt`, `"1.٣"` gives `1.1`, where Python gives `1.4`.
- **Set order.**
  - `ResearchAgent.ExtractCategories`: the order of `list(set(...))` is modelled as insertion order; only membership and the absence of duplicates are stated.
  - `Consolidation.ListUnion`: the order of `list(set(a + b))` is modelled as first-occurrence order.
  - `Consolidation.ListUnion` also unions lists of unhashable elements (dictionaries, lists), where Python's `set()` raises `TypeError`.
- **Equality.** The filters use Python's `==` (`Json.Equals`: booleans equal the numbers 0 and 1). Elsewhere values are compared as Dafny values, so `Bool` and `Num` are distinct.
  - Consolidation.Dedup: `list(set(...))` treats `1` and `True` as one element; the model keeps both. The same holds for `Consolidation.ListUnion`.
- **Integers and floats.** `Json.Value` has one number kind, `Num(real)`, so an integer and the equal float are one value.
  - Consolidation.GroupKey: topics `1` and `1.0` give one group key, where Python's f-string gives `t_1` and `t_1.0`.
- Retrieval.Search: requires that no filter check of any stored document can raise in any dictionary order, although Python raises only when the raising check comes before every failing one.
- Consolidation.MergeEntries: a group whose timestamps are lists, which Python can sort, is outside `Mergeable`; only numbers and strings are modelled.
- **In-place updates.**
  - `Consolidation.MergeEntries`: `_merge_entries` copies the newest entry shallowly, so `_recursive_merge` also rewrites that entry's own `content` dictionary. The model returns a new value. The grouped lists are local to `consolidate_memory`, so only the written records are observable.
  - `Consolidation.RecursiveMerge` works on values, so aliasing between nested dictionaries is not modelled.
- **Organisation block.** `Orchestrator.OrganizationBlock` holds the decoded dictionary of the block, not its JSON text.
- **Message type.** `DeepSeekWrapper.Message` is a record of role and content, so a message dictionary lacking `role` or `content`, which would raise `KeyError`, cannot be expressed.
- **Relevance default.** `Retrieval.RelevanceTo` scores documents on which `_calculate_relevance` would raise as 0. `Search` requires that no such document is scored, so the default never reaches a result.
- **Version examples.** `Versions.IncrementNumbered` covers the examples `1.0` gives `1.1` and `2.5` gives `2.6` for all integers at once, instead of as literal cases.
- **Test-only methods.** The methods `cleanup_old_memories`, `_is_memory_important`, `consolidate_similar_memories`, `optimize_memory_structure` and `MemoryOptimizer._increment_version` appear only in the tests and do not exist in the source.

## Findings

| source | as written | input that shows it | evidently intended | confidence | as-written member | corrected member |
|---|---|---|---|---|---|---|
| components/orchestrator.py:131-133 | `context["system_context"]["last_optimization"] = ...` assumes the block already has a `system_context` dictionary, but the constructor (components/orchestrator.py:18-30) writes none. `should_optimize` returns true for such a block (components/orchestrator.py:119-122), so the first optimisation raises `KeyError` | the initial organisation block, at any time | create the system context when it is missing, then record the time, so optimisation runs once a day | not executed | Orchestrator.InitialOptimizationFails | Orchestrator.OptimizationDueDaily |
