# Ragstudio: what its indexing and retrieval services promise

This project models six parts of the Ragstudio backend in Dafny and proves what they promise. Each part is
one or a few modules; `dafny verify dfyconfig.toml` checks all of them.

* **Cleaning up the graph projection** (`CleanupSaga`, `ProjectionRuns`, `ProjectionRunner`). A document is
  projected into external graph stores; records say which store holds it. Deleting the document sends one
  delete per target and commits a progress marker after each step in a transaction of its own, so the
  markers survive when the main transaction is rolled back. The model has the committed records, the view of
  the main transaction, what the stores hold, and a possible end of the process after every step.
* **The projection itself** (`QualityPolicy`, `Projection`, `GraphStore`). From the chunks of a document to
  nodes and relationships, and what replacing and deleting do to a workspace that holds many documents.
* **The chunk splitter** (`Text`, `HardSplit`, `SectionPacking`, `TextGroups`, `SplitAlignment`,
  `ReadingOrder`, `CanonicalOrder`, `PageGeometry`). Words and their places, splitting at word ends, packing,
  the offsets of grouped blocks, finding the parts of a split unit again, and the two-dimensional reading
  order of a page and of a document.
* **Context assembly** (`ContextTokens`, `ContextAssembly`) under a token budget.
* **Evidence windows** (`EvidenceWindows`) around anchors.
* **Metadata** (`MetadataMerge`, `ContractCompiler`): the deep merge of a suggestion into baseline metadata,
  and the compilation that switches unverified reference contracts off.
* **LIKE escaping** (`LikeEscape`), against the LIKE predicate of section 8.5 of ISO/IEC 9075-2.

`Wrappers`, `Sequences` and `Sorting` hold the option type, facts about sequences and Python's stable sort.
Objects that the source updates in place are classes; its loops are methods with invariants, specified by
functions about which the lemmas are proved. Lemmas whose names end in `Tell` or `Tells` say what such a function
means from the fields, places and coordinates it is given, without the functions it is made of.

Three promises do not hold without a condition, and the condition is proved to be the exact one.

* *A delete that returns leaves nothing behind.* It does when every event before it is safe
  (`DeletedDocumentIsGone`); and after an event that is not, the next delete that returns does leave something
  behind (`GoneOnlyWhenAllowed`).
  A write is safe if and only if it stores no node, or its record is not marked cleaned, or another open group
  reaches the target. A record that waits while a delete marks its group, and is written after that delete
  was rolled back, breaks it (`MarkedRecordLeaks`). A record enqueued just before the write meets the condition
  (`FreshRecordIsPicked`). The condition matters where a record may have waited: a worker that takes over an
  index job resumes with the pending record and enqueues none
  (`backend/src/ragstudio/services/index_job_runner.py:75-83`), and indexing itself persists and enriches the
  chunks between enqueueing its record and writing it.
  A write whose record is lost leaves nodes that no delete looks for (`LostRecordLeaks`), until the target is
  written again (`LostWriteIsMadeGood`, `NextWriteRecovers`).
  Setting a record to skipped is safe while the record waits (`PendingIsSkipped`). A document service without
  settings drops the records and calls no store, which is safe only if the stores are empty (`DropIsGood`).
  What does not depend on safety is stated over every run: that a delete returns once all stores answer
  (`AnsweringStoresFinish`), and that no store is called for a group unless it was written
  (`OnlyWrittenIsSent`, `CleanedIsNotSentAgain`).
* *Compiling metadata twice is compiling it once.* The exception can be read off the metadata
  (`CompilingMetadataTwice`), and it occurs (`ContractSwitchesOnOnce`).
* *Merging the same suggestion again changes nothing.* For every baseline, exactly if the lists of the
  suggestion that a path of dictionaries leads to have no duplicates, and no empty strings among strings.

Assumptions: the profile table does not change during a document's life; workspace labels are not blank;
external stores report truthfully whether a delete succeeded (a failure may or may not have removed the nodes),
and a failed write changes nothing; writing a projection is not interleaved with a delete, as the document
lock has it; record ids and chunk ids are unique, being primary keys.

## Model

| member | source | states |
|---|---|---|
| CleanupSaga.OwnFieldsFirst | backend/src/ragstudio/services/graph_projection_runner.py:437-458 | A field of a record that is not empty counts, otherwise that of its live profile |
| CleanupSaga.OpenByFields | backend/src/ragstudio/services/graph_projection_runner.py:149-154 | A group is sent exactly when none of its records carries the mark of success and one of them was written or has a count |
| CleanupSaga.KeysByFirstRecord | backend/src/ragstudio/services/graph_projection_runner.py:130-139 | Groups stand in the order of their first records |
| CleanupSaga.MarkersKeepGroups | backend/src/ragstudio/services/graph_projection_runner.py:265-304 | A marker writes the effective key of a group into its records, and a later attempt finds every record in the group it was in |
| CleanupSaga.MarkedGroup | backend/src/ragstudio/services/graph_projection_runner.py:149-154 | A marked group is closed by the marker "succeeded" and stays open under "running" and "failed" |
| CleanupSaga.OpenKeysAreOpen | backend/src/ragstudio/services/graph_projection_runner.py:130-154 | The groups a delete sends are exactly those without a cleaned record and with one that needs cleanup, each once |
| CleanupSaga.RemarkingKeepsGroups | backend/src/ragstudio/services/graph_projection_runner.py:140-147 | Completing the markers of groups that are cleaned already changes neither which groups are open nor which are cleaned |
| CleanupSaga.RemarkedCompletely | backend/src/ragstudio/services/graph_projection_runner.py:140-147 | In a cleaned group every record ends up marked and names the group; the records of other groups are as they were |
| CleanupSaga.GroupTells | backend/src/ragstudio/services/graph_projection_runner.py:174-196 | For every way a group can end: which mark each of its records carries, that no other record changes, and that its nodes are gone exactly when the store deleted them |
| CleanupSaga.WithoutAddress | backend/src/ragstudio/services/graph_projection_runner.py:174-187 | A group without an address is never deleted: its store is not called, and it is marked failed unless the process ends before |
| CleanupSaga.DeleteShrinks | backend/src/ragstudio/services/graph_projection_runner.py:174-196 | Cut off anywhere, a delete leaves exactly the groups open that it did not mark; cleaned groups stay cleaned |
| CleanupSaga.DeleteRemoves | backend/src/ragstudio/services/graph_projection_runner.py:174-198 | Nothing enters a store; what leaves was reached by a group the delete had come to; what a deleted group reaches is gone |
| CleanupSaga.DeleteKeepsCovered | backend/src/ragstudio/services/graph_projection_runner.py:109-207 | Wherever a delete is cut off, every node that a store still holds is reached by an open group |
| CleanupSaga.FinishedMeansGone | backend/src/ragstudio/services/graph_projection_runner.py:109-207 | A delete that gets through its groups leaves the stores without the document if and only if open groups covered all they held |
| CleanupSaga.WriteEnds | backend/src/ragstudio/services/graph_projection_runner.py:36-67 | After a write the record waits no more: it succeeded exactly with a live profile, an address and a store that took the nodes, was skipped exactly without an address or a reachable store, and failed otherwise; the counts are those written |
| CleanupSaga.WriteReplaces | backend/src/ragstudio/services/graph_projection_runner.py:36-67 | A successful write drops exactly the other records that name the same workspace, address and user and puts its nodes in place of what the target held; any other write changes no other record and no store |
| ProjectionRuns.WriteKeepsCovered | backend/src/ragstudio/services/graph_projection_runner.py:36-67 | Writing a projection keeps the stores covered if and only if it wrote no node, or its record is not marked cleaned, or another open group reaches the target |
| ProjectionRuns.WrittenGroup | backend/src/ragstudio/services/graph_projection_runner.py:332-344 | Because success prunes the other records of the target, the group of a written record is open unless that record itself is marked cleaned |
| ProjectionRuns.RunIsGood | backend/src/ragstudio/services/graph_projection_runner.py:36-207 | Over every run of enqueueing, writing, writes whose record is lost, skipping, deletes cut off anywhere, and dropped records, each event being safe, every node in a store is reached by an open group, and records name their targets |
| ProjectionRuns.DeletedDocumentIsGone | backend/src/ragstudio/services/graph_projection_runner.py:109-207 | After any such run, a delete that returns leaves no node of the document in any store |
| ProjectionRuns.ReturnedMeansGone | backend/src/ragstudio/services/graph_projection_runner.py:109-207 | In any state at all, a delete that returns leaves the stores without the document if and only if open groups covered all they held |
| ProjectionRuns.StepIsGoodExactly | backend/src/ragstudio/services/graph_projection_runner.py:36-207 | Any event but enqueueing keeps every stored node reached by an open group if and only if the event is safe |
| ProjectionRuns.GoneOnlyWhenAllowed | backend/src/ragstudio/services/graph_projection_runner.py:109-207 | A delete that returns right after such an event leaves nothing stored if and only if the event was safe |
| ProjectionRuns.MarkedRecordLeaks | backend/src/ragstudio/services/graph_projection_runner.py:36-67 | A run in which a record marked cleaned is written, after which a delete returns and a node is still stored |
| ProjectionRuns.LostRecordLeaks | backend/src/ragstudio/services/graph_projection_runner.py:47-67 | A run in which a write is stored and its record lost, after which a delete returns and the node is still stored |
| ProjectionRuns.LossIsGood | backend/src/ragstudio/services/graph_projection_runner.py:47-67 | If nodes are written and the record is lost, the stores stay covered if and only if nothing was written or an open group reaches the target anyway |
| ProjectionRuns.LostWriteIsMadeGood | backend/src/ragstudio/services/graph_projection_runner.py:36-67 | Whatever follows a lost write, the records are as without it and the stores differ at its target only; once that target is written again the two states are the same |
| ProjectionRuns.NextWriteRecovers | backend/src/ragstudio/services/graph_projection_runner.py:36-67 | The record of a lost write still waits, and the next write that succeeds leaves the state that it would have left without the lost one |
| ProjectionRuns.SkipIsGood | backend/src/ragstudio/services/index_lifecycle_service.py:627-641 | Setting a record to skipped keeps the stores covered if and only if its group was not open, or stays open, or the stores hold nothing that only this group reaches |
| ProjectionRuns.SkippedWaitsNoMore | backend/src/ragstudio/services/index_lifecycle_service.py:627-641 | A record set to skipped waits no more and has no counts; the others are as they were |
| ProjectionRuns.PendingIsSkipped | backend/src/ragstudio/services/index_lifecycle_service.py:346-410 | A record that still waits is set to skipped safely |
| ProjectionRuns.DropIsGood | backend/src/ragstudio/services/document_service.py:191-201 | When the records are dropped without calling a store, the stores are covered if and only if they are empty |
| ProjectionRuns.RunIsSound | backend/src/ragstudio/services/graph_projection_runner.py:36-207 | Over every run, safe or not, records keep distinct ids, a waiting record was never counted, a cleaned one names its group and one that needs cleanup names its target |
| ProjectionRuns.FreshRecordIsPicked | backend/src/ragstudio/services/index_lifecycle_service.py:605-625 | A record enqueued just before writing is the one that is written, and it is not marked |
| ProjectionRuns.OnlyOpenIsSent | backend/src/ragstudio/services/graph_projection_runner.py:149-187 | A delete calls a store only for groups that were open when it began, and once per group |
| ProjectionRuns.ReturnedSendsAll | backend/src/ragstudio/services/graph_projection_runner.py:149-198 | A delete that returns called a store for every group that was open, and for no other |
| ProjectionRuns.WhatLeavesWasSent | backend/src/ragstudio/services/graph_projection_runner.py:174-196 | Whatever a delete marked cleaned, and whatever left a store, went through a call of that store |
| ProjectionRuns.CleanedStaysCleaned | backend/src/ragstudio/services/graph_projection_runner.py:36-207 | A group marked cleaned stays so until its target is written again or the records are dropped |
| ProjectionRuns.CleanedIsNotSentAgain | backend/src/ragstudio/services/graph_projection_runner.py:140-154 | However a run goes on, safe or not, a cleaned group stays cleaned and is not sent to its store again before its target is written again or the records are dropped |
| ProjectionRuns.ClosedStaysClosed | backend/src/ragstudio/services/graph_projection_runner.py:36-207 | Only a committed write for a group opens it: no other event does, dropping the records included |
| ProjectionRuns.OnlyWrittenIsSent | backend/src/ragstudio/services/graph_projection_runner.py:140-187 | Over every run, safe or not, no delete calls a store for a group that was closed at the start and for which no write was committed |
| ProjectionRuns.GettingOnShrinks | backend/src/ragstudio/services/graph_projection_runner.py:174-196 | An attempt that deletes and marks a group leaves strictly fewer open groups |
| ProjectionRuns.RetriesEnd | backend/src/ragstudio/services/graph_projection_runner.py:109-207 | The attempts that get on but do not return are at most as many as there were open groups |
| ProjectionRuns.AnsweringStoresFinish | backend/src/ragstudio/services/graph_projection_runner.py:174-180 | After every run, safe or not, a delete returns once all stores answer: every open group names a target |
| ProjectionRunner.RepresentativeIsLive | backend/src/ragstudio/services/graph_projection_runner.py:418-428 | The record that stands for a group has a live profile whenever any record of the group has |
| ProjectionRunner.RepresentativeIsFirst | backend/src/ragstudio/services/graph_projection_runner.py:418-428 | The representative is the first of the records of least rank: with a live profile, else with a login of its own, else any |
| ProjectionRunner.GraphProjectionRunner.PersistMarker | backend/src/ragstudio/services/graph_projection_runner.py:265-304 | Writes key and status into exactly the records with the given ids, field by field, in the session and in committed storage |
| ProjectionRunner.GraphProjectionRunner.GroupRecords | backend/src/ragstudio/services/graph_projection_runner.py:130-139 | The keys in order of first occurrence, with the ids of exactly the records of each group |
| ProjectionRunner.GraphProjectionRunner.RemarkCleaned | backend/src/ragstudio/services/graph_projection_runner.py:140-147 | The committed records after re-marking, cut off or not, and whether any group was cleaned |
| ProjectionRunner.GraphProjectionRunner.GroupsToClean | backend/src/ragstudio/services/graph_projection_runner.py:149-154 | The check by record ids selects exactly the open groups, in order |
| ProjectionRunner.GraphProjectionRunner.CleanGroup | backend/src/ragstudio/services/graph_projection_runner.py:174-196 | For every way one group can end: what is committed, what the store holds, whether the store was called, and whether the delete goes on, raises or dies |
| ProjectionRunner.GraphProjectionRunner.CleanGroups | backend/src/ragstudio/services/graph_projection_runner.py:174-198 | The loop over the groups ends in exactly the state, and calls exactly the stores, that the fates of the groups lead to |
| ProjectionRunner.GraphProjectionRunner.DeleteGraph | backend/src/ragstudio/services/graph_materialization_service.py:101-142 | A delete without a store address is skipped; otherwise exactly the nodes of the target leave, and are counted |
| ProjectionRunner.GraphProjectionRunner.DeleteDocumentGraph | backend/src/ragstudio/services/graph_projection_runner.py:109-207 | Commits exactly the state of the state machine; returns exactly when all groups were cleaned; its node count is what left the stores; the stores called are the groups sent |
| ProjectionRunner.GraphProjectionRunner.DeleteDocument | backend/src/ragstudio/services/document_service.py:173-217 | Deleting and then committing or rolling back is exactly one delete step of the state machine, or, without settings, exactly one step that drops the records; it gets through if and only if the graph delete returns or there are no settings |
| ProjectionRunner.GraphProjectionRunner.EnqueueProjection | backend/src/ragstudio/services/index_lifecycle_service.py:606-625 | Committing a new pending record is exactly one enqueueing step of the state machine |
| ProjectionRunner.GraphProjectionRunner.MaterializePending | backend/src/ragstudio/services/graph_projection_runner.py:36-67 | Committed or lost, a write is exactly one step of the state machine. It reports something exactly when some record waits; then the last one that waits is written and waits no more, with the status and the counts that profile, address and the answer of the store decide |
| ProjectionRunner.GraphProjectionRunner.MarkSkipped | backend/src/ragstudio/services/index_lifecycle_service.py:627-641 | Setting a record to skipped is exactly one step of the state machine; it fails if and only if no record has the id |
| QualityPolicy.ReferencePolicyTells | backend/src/ragstudio/services/domain_metadata_quality_gate.py:1136-1155 | The policy of one reference: the two blocking actions keep it out of graph and index, a missing Arabic script out of the exact Arabic index |
| QualityPolicy.ChunkPolicyTells | backend/src/ragstudio/services/domain_metadata_quality_gate.py:1192-1228 | The policy of a chunk from the findings on its references: permissions, collected flags and confidence |
| QualityPolicy.BlocksByFields | backend/src/ragstudio/services/domain_metadata_quality_gate.py:527-535 | Which warnings block: a gate action counts before an action, severity only for layout quality |
| QualityPolicy.ParserTells | backend/src/ragstudio/services/domain_metadata_quality_gate.py:482-525 | One blocking warning switches both index flags and the graph off and says why; the flags are those there were and one for the code of every blocking warning |
| QualityPolicy.ReferencesDecide | backend/src/ragstudio/services/domain_metadata_quality_gate.py:1192-1228 | The aggregated policy lets a chunk into the graph if and only if no reference in it is blocked or quarantined |
| QualityPolicy.ParserNeverReenables | backend/src/ragstudio/services/domain_metadata_quality_gate.py:482-525 | After the parser stage a chunk is projected if and only if it was before and no warning blocks it; nothing is enabled and no flag is lost |
| QualityPolicy.ParserTwice | backend/src/ragstudio/services/domain_metadata_quality_gate.py:482-525 | The parser stage changes nothing the second time |
| QualityPolicy.ChunkMetadata.ApplyParserWarnings | backend/src/ragstudio/services/domain_metadata_quality_gate.py:482-525 | The policy and the flags of one chunk after its blocking warnings |
| QualityPolicy.ApplyParserQualityActionPolicy | backend/src/ragstudio/services/domain_metadata_quality_gate.py:482-525 | Every chunk in the list ends with the policy and the flags of the parser stage, even one that stands in the list twice |
| QualityPolicy.ChunkIsProjected | backend/src/ragstudio/services/domain_metadata_quality_gate.py:482-525 | Both stages together: projected if and only if no reference is blocked or quarantined and no parser warning blocks |
| Projection.Project | backend/src/ragstudio/services/graph_materialization_service.py:154-271 | The two passes over the chunks yield the chunk nodes, the reference nodes and the relationships of the specification |
| Projection.IndexChunks | backend/src/ragstudio/services/graph_materialization_service.py:163-206 | The first pass: nodes, listed references, and for every name exactly the projected chunks that bear it |
| Projection.AliasesTell | backend/src/ragstudio/services/graph_materialization_service.py:514-530 | The names of a chunk: its place, its ids, and the old common name if one of its relationships uses it |
| Projection.ReferenceIdTells | backend/src/ragstudio/services/graph_workspace.py:19-22 | A reference has one id with and without its prefix, and can be read back from the id |
| Projection.GraphNodeIdResolves | backend/src/ragstudio/services/graph_materialization_service.py:533-551 | Looking a name up in the tables of the first pass gives what the name means |
| Projection.ResolveTells | backend/src/ragstudio/services/graph_materialization_service.py:533-551 | A name resolves to what it means: the chunk itself, the only projected bearer, or a reference; never an unknown chunk |
| Projection.ResolvesToOnlyBearer | backend/src/ragstudio/services/graph_materialization_service.py:533-551 | A name means a chunk if and only if the chunk is projected and bears it, and either it is the chunk's own name or nobody else bears it |
| Projection.ProjectionIsClosed | backend/src/ragstudio/services/graph_materialization_service.py:154-271 | Every relationship leads from an emitted node to an emitted node |
| Projection.YieldedIsEmitted | backend/src/ragstudio/services/graph_materialization_service.py:208-269 | Every relationship of a projected chunk whose two names mean something yields an edge, at its place, from the meaning of its source to the meaning of its target |
| Projection.EdgeComesFrom | backend/src/ragstudio/services/graph_materialization_service.py:208-269 | Nothing else does: every edge comes from one such relationship, with its type and evidence |
| Projection.EdgeTypeTells | backend/src/ragstudio/services/graph_materialization_service.py:234-236 | A relationship keeps its type when some chunk declares it or none declares any; otherwise it is related |
| Projection.ReferenceNodesExactly | backend/src/ragstudio/services/graph_materialization_service.py:176-253 | The reference nodes are exactly those that a projected chunk lists or a relationship leads to |
| Projection.ListedText | backend/src/ragstudio/services/graph_materialization_service.py:176-186 | The text of a listed reference is that of the first chunk that lists it |
| Projection.EndpointText | backend/src/ragstudio/services/graph_materialization_service.py:239-256 | A relationship never changes the text of a listed reference; another one gets what stands behind the prefix |
| Projection.NodesAreProjected | backend/src/ragstudio/services/graph_materialization_service.py:163-199 | The chunk nodes are exactly those of the chunks that may be projected |
| Projection.ChunkNodesTell | backend/src/ragstudio/services/graph_materialization_service.py:163-199 | A chunk has a node, named by document and chunk, unless its policy has project_graph off or confidence "blocked" |
| Projection.NodeIdsAreDistinct | backend/src/ragstudio/services/graph_workspace.py:15-16 | With distinct chunk ids no two chunk nodes share an id |
| Projection.BlockedChunkIsAbsent | backend/src/ragstudio/services/graph_materialization_service.py:461-465 | A chunk whose policy has project_graph off or confidence "blocked" has no node, and no relationship begins or ends at it |
| Projection.BlockedReferenceKeepsChunkOut | backend/src/ragstudio/services/graph_materialization_service.py:154-271 | One blocked or quarantined reference, or one blocking parser warning, keeps the whole chunk out of the graph |
| GraphStore.GraphStore.ReplaceGraph | backend/src/ragstudio/services/graph_materialization_service.py:273-358 | The transaction, type by type in any order, stores exactly the content in place of what the document had; the counts it reports |
| GraphStore.GraphStore.MergeEdge | backend/src/ragstudio/services/graph_materialization_service.py:338-354 | A relationship is merged, and its evidence set, if and only if both its nodes are in the document's graph |
| GraphStore.GraphStore.DeleteGraph | backend/src/ragstudio/services/graph_materialization_service.py:360-384 | Removes the document, and the two counts are exactly what is removed |
| GraphStore.CallsRefineUnion | backend/src/ragstudio/services/graph_materialization_service.py:273-384 | Over every sequence of replaces and deletes the graph is the disjoint union of what was last written for each document; relationships never cross documents |
| GraphStore.OtherDocumentsUntouched | backend/src/ragstudio/services/graph_materialization_service.py:281-285 | A call leaves the nodes and relationships of other documents alone |
| GraphStore.ReplaceTwice | backend/src/ragstudio/services/graph_materialization_service.py:321-354 | Replacing by the same content again changes nothing, in any graph |
| GraphStore.DeleteUndoesReplace | backend/src/ragstudio/services/graph_materialization_service.py:375-380 | Deleting after replacing leaves what deleting alone leaves |
| GraphStore.OneKindAtATime | backend/src/ragstudio/services/graph_materialization_service.py:331-354 | Written type by type or in one go, a relationship keeps the same evidence |
| GraphStore.LastEvidenceCounts | backend/src/ragstudio/services/graph_materialization_service.py:338-354 | The evidence stored for a triple is that of its last relationship |
| GraphStore.NothingDangles | backend/src/ragstudio/services/graph_materialization_service.py:336-350 | No relationship is ever left without its two nodes |
| GraphStore.HeldAfterReplace | backend/src/ragstudio/services/graph_materialization_service.py:273-358 | After a replace the store holds of the document each of its ids and each of its connected triples, once |
| GraphStore.ProjectionIsStored | backend/src/ragstudio/services/graph_materialization_service.py:95-99 | Every relationship of a projection is in the store after the replace; the reported number is at least the number the store holds of the document, and equal if and only if no triple occurs twice |
| GraphStore.ReportedNodeCount | backend/src/ragstudio/services/graph_materialization_service.py:95-99 | With distinct chunk ids the reported number of nodes is the number of nodes the store holds of the document |
| Text.SpansAreMaximalRuns | backend/src/ragstudio/services/chunk_splitter.py:984-990 | The places of words are the maximal runs of non-space characters, from left to right |
| Text.StripIsMiddle | backend/src/ragstudio/services/chunk_splitter.py:1111 | Stripping takes all white space off both ends and nothing else |
| Text.JoinWordsRoundTrip | backend/src/ragstudio/services/chunk_splitter.py:1154-1157 | Joining words with a space and splitting again gives the words back |
| HardSplit.SemanticSplitIndex | backend/src/ragstudio/services/chunk_splitter.py:1164-1181 | The last boundary in the window that leaves between the lower and the upper number of words, and none exactly when there is no such boundary |
| HardSplit.SplitOversizedSentence | backend/src/ragstudio/services/chunk_splitter.py:1143-1162 | Words are kept in order, every piece is within the limit, all but the last have at least lower words, n words yield at most n / lower + 1 pieces, and every cut is at the last boundary of its window or after hard_max words |
| HardSplit.CutFirst | backend/src/ragstudio/services/chunk_splitter.py:1147-1161 | The first piece has between lower and hard_max words, the rest has the others, and the cut is the last boundary of the window, or after hard_max words if and only if there is none |
| HardSplit.HardSplitText | backend/src/ragstudio/services/chunk_splitter.py:1104-1141 | The words of the pieces are exactly the words of the text; a text within the limit is one piece; otherwise the pieces are runs of whole sentences, cut only where the next one did not fit, and the pieces of single sentences over the limit, cut as `SplitInto` says; where sentences end and where a long one may be cut is in `SentencesOfText` and `BoundariesOfText` |
| HardSplit.SentencesOfText | backend/src/ragstudio/services/chunk_splitter.py:1099-1110 | Sentences are stretches of the text; between two there is exactly one whole run of white space after a sentence end, and inside of none is a sentence end followed by white space |
| HardSplit.NonBlankComesFrom | backend/src/ragstudio/services/chunk_splitter.py:1110-1113 | Every sentence that is packed is one that is not blank, stripped, and order is kept |
| HardSplit.BoundariesOfText | backend/src/ragstudio/services/chunk_splitter.py:1102 | A place is a boundary exactly when it ends the white space after a soft boundary or another run of line breaks |
| HardSplit.WindowByWords | backend/src/ragstudio/services/chunk_splitter.py:1164-1181 | A place after white space is in the window exactly when it leaves at least `lower` and fewer than `hardMax` words in front of it |
| HardSplit.PackSentences | backend/src/ragstudio/services/chunk_splitter.py:1110-1141 | The loop over the sentences keeps all words in order, and every run of sentences and every divided sentence accounts for its pieces |
| SectionPacking.PackSections | backend/src/ragstudio/services/chunk_splitter.py:1074-1096 | The chunks are made of exactly the parts of the sections in order; each is one part, or several within the target of which all but the last do not fill the limit; between two chunks the next part did not fit or the chunk was full |
| SectionPacking.PackingIsUnique | backend/src/ragstudio/services/chunk_splitter.py:1074-1096 | Whatever is packed from the same parts by these limits is what the packing makes, chunk by chunk |
| TextGroups.OrderedTextGroups | backend/src/ragstudio/services/chunk_splitter.py:387-467 | The loop yields the groups of the segments into which the blocks fall |
| TextGroups.GroupBuilder.Flush | backend/src/ragstudio/services/chunk_splitter.py:412-429 | Finishes the open group and nothing else |
| TextGroups.GroupBuilder.AddText | backend/src/ragstudio/services/chunk_splitter.py:446-464 | A heading begins a group, any other text joins the open one |
| TextGroups.GroupBuilder.AddWarnings | backend/src/ragstudio/services/chunk_splitter.py:435-444 | A block with warnings and no text closes the open group and is a group of its own |
| TextGroups.GroupBuilder.MergePageRange | backend/src/ragstudio/services/chunk_splitter.py:395-410 | The page range widens to the hull with the block's |
| TextGroups.HeadingTells | backend/src/ragstudio/services/chunk_splitter.py:476-478 | A heading begins with one to four signs with white space right behind them |
| TextGroups.PagesTell | backend/src/ragstudio/services/chunk_splitter.py:395-410 | The pages of a block: its own range where it has one, otherwise its page; one end stands for the other |
| TextGroups.PlacesAreRight | backend/src/ragstudio/services/chunk_splitter.py:449-459 | The text of a group between the recorded offsets of a block is the block's text; offsets increase with gaps of exactly two, from the start to the end of the group |
| TextGroups.CharInBlock | backend/src/ragstudio/services/chunk_splitter.py:412-467 | Every non-space character of a group's text belongs to one of its blocks |
| TextGroups.GroupsKeepBlocksAndWarnings | backend/src/ragstudio/services/chunk_splitter.py:387-467 | Every block with text is recorded exactly once in order, and the groups carry all warnings of all blocks in order |
| TextGroups.SegmentsPartition | backend/src/ragstudio/services/chunk_splitter.py:387-467 | Every block with text or warnings is in exactly one segment, in order |
| TextGroups.SegmentsWellCut | backend/src/ragstudio/services/chunk_splitter.py:434-478 | A heading is first in its group, and only headings and blocks without text make a cut |
| TextGroups.PageHull | backend/src/ragstudio/services/chunk_splitter.py:395-410 | The page range of a group is the hull of the page ranges of its blocks |
| SplitAlignment.TextSpanForSplitChild | backend/src/ragstudio/services/chunk_splitter.py:977-1011 | The search finds what the specification locates |
| SplitAlignment.ReferenceUnitHardSplitPieces | backend/src/ragstudio/services/chunk_splitter.py:913-975 | One piece for every part with words, each located from where the one before it ended |
| SplitAlignment.FirstMatchIsFirst | backend/src/ragstudio/services/chunk_splitter.py:977-1011 | The first place where the words stand is found, and the search fails only where there is none |
| SplitAlignment.AlignedChild | backend/src/ragstudio/services/chunk_splitter.py:913-975 | Part number i of a word-aligned unit is found by the search at exactly the words right after those of the parts before it; its pages are the hull of the pages of the blocks these words touch, and its warnings are those of these blocks |
| SplitAlignment.AlignedIsFound | backend/src/ragstudio/services/chunk_splitter.py:913-1011 | The search for a part of a word-aligned unit, begun behind the words of the parts before it, succeeds, and at exactly the words that follow |
| SplitAlignment.WarningsAreOfWords | backend/src/ragstudio/services/chunk_splitter.py:901-911 | The warnings handed on for a stretch of words are those of the blocks the words stand in, in order |
| SplitAlignment.BlockTouchesWords | backend/src/ragstudio/services/chunk_splitter.py:1019-1033 | A block overlaps the stretch of some words if and only if it shares a character with one of them |
| SplitAlignment.LocationIsPageHull | backend/src/ragstudio/services/chunk_splitter.py:883-899 | The page range computed for a stretch of words is the hull of the paged blocks the words touch |
| SplitAlignment.StretchTells | backend/src/ragstudio/services/chunk_splitter.py:883-899 | The location of any stretch of a group, known or not, is the hull of the pages of the blocks that count for it |
| SplitAlignment.NotFoundTells | backend/src/ragstudio/services/chunk_splitter.py:913-975 | A part that is not found keeps the page range of its unit, loses a single page next to one, and gets no warning |
| SplitAlignment.StretchWarnings | backend/src/ragstudio/services/chunk_splitter.py:901-911 | The warnings handed on for any stretch are those of the blocks that count for it |
| SplitAlignment.SplitReferenceUnit | backend/src/ragstudio/services/chunk_splitter.py:809-871 | A unit is split as `HardSplitText` splits it; of a word-aligned unit over the limit every part is found, one right after the other, so that they cover it, each with the pages and the warnings of the blocks it stands in; a unit within the limit is one piece with its own location and warnings |
| ReadingOrder.ColumnClusters | backend/src/ragstudio/services/chunk_splitter.py:688-714 | The sweep finds exactly the columns that the gaps define, each block in one of them |
| ReadingOrder.ColumnsAreApart | backend/src/ragstudio/services/chunk_splitter.py:688-714 | A block in an earlier column ends more than the tolerance before a block in a later one begins |
| ReadingOrder.ColumnsAreConnected | backend/src/ragstudio/services/chunk_splitter.py:688-714 | A block that does not begin a column is within the tolerance of one further left in the same column |
| ReadingOrder.OrderColumnsInBand | backend/src/ragstudio/services/chunk_splitter.py:663-686 | The blocks of a band column by column from the left, or from the right for right-to-left text, each from top to bottom |
| ReadingOrder.OrderBands | backend/src/ragstudio/services/chunk_splitter.py:604-629 | Bands and separators in turn: a permutation of both in the order that the geometry prescribes |
| ReadingOrder.BandedVisualOrder | backend/src/ragstudio/services/chunk_splitter.py:585-629 | A permutation of the page in the order that the geometry prescribes between any two blocks; `PageOrderTells` says from the coordinates which that is |
| PageGeometry.PageWidthTells | backend/src/ragstudio/services/chunk_splitter.py:631-641 | The page width is the greatest right edge or width of a box, and 1 at least: an upper bound that is reached |
| PageGeometry.WideBeforeNarrow | backend/src/ragstudio/services/chunk_splitter.py:604-661 | Whether a block at least seven tenths as wide as the page comes before a narrower one, from their coordinates alone |
| PageGeometry.PageOrderTells | backend/src/ragstudio/services/chunk_splitter.py:585-714 | The order in which a page is read is the one that an independent definition by coordinates gives: counts of wide blocks above, columns by gaps, top to bottom |
| ReadingOrder.PageOrderIsOneWay | backend/src/ragstudio/services/chunk_splitter.py:585-629 | The prescribed order never holds both ways, so it determines the result |
| ReadingOrder.FullWidthBeforeNarrow | backend/src/ragstudio/services/chunk_splitter.py:643-661 | A full-width block is read before a narrow one if and only if its top is at or above the middle of the narrow one |
| ReadingOrder.ColumnsFromTheSide | backend/src/ragstudio/services/chunk_splitter.py:663-714 | Within a band columns are read from the left, or in exactly the reverse order for right-to-left text, and a column from top to bottom |
| CanonicalOrder.CanonicalBlockOrder | backend/src/ragstudio/services/chunk_splitter.py:551-583 | A permutation of the document with page after page in order; the parser's order where no block has a box |
| PageGeometry.CanonicalOrderTells | backend/src/ragstudio/services/chunk_splitter.py:551-583 | What the ordering of a document comes to, from page numbers and coordinates alone |
| CanonicalOrder.PagesNeverFall | backend/src/ragstudio/services/chunk_splitter.py:551-583 | Once any block has a box, page numbers never fall and blocks without a page come last |
| CanonicalOrder.DocumentOrderIsOneWay | backend/src/ragstudio/services/chunk_splitter.py:551-583 | The order of a document never holds both ways between two blocks |
| CanonicalOrder.OrderingAgainChangesNothing | backend/src/ragstudio/services/chunk_splitter.py:551-629 | Ordering what is ordered leaves every block where it stands, ties, mixed pages and unknown pages included |
| ContextTokens.EstimateTells | backend/src/ragstudio/services/context_assembly_service.py:282-292 | The estimate is the greatest of 1, the words, a quarter of the characters, three quarters of the Arabic and half of the code characters |
| ContextTokens.TruncateTells | backend/src/ragstudio/services/context_assembly_service.py:295-302 | What is left of a cut text: its first paragraph if that fits, otherwise its first words |
| ContextTokens.TruncationNeverRaises | backend/src/ragstudio/services/context_assembly_service.py:282-302 | Cutting a text that is over the limit never raises its token estimate |
| ContextTokens.TruncationKeepsAPrefix | backend/src/ragstudio/services/context_assembly_service.py:295-302 | What is left of a cut text is a prefix of its words |
| ContextTokens.FirstWordsNeedLess | backend/src/ragstudio/services/context_assembly_service.py:282-302 | The first words of a text, joined, never need more tokens than the text |
| ContextAssembly.Assemble | backend/src/ragstudio/services/context_assembly_service.py:51-159 | The loop yields the state that the candidates lead to one after the other |
| ContextAssembly.BudgetIsKept | backend/src/ragstudio/services/context_assembly_service.py:72-110 | The total is the sum over the admitted texts and at most max(budget, direct evidence); when direct evidence reaches the budget nothing else is admitted |
| ContextAssembly.EveryCandidateAccounted | backend/src/ragstudio/services/context_assembly_service.py:61-110 | Every candidate meets one fate and the result shows it: an item with its text, an item of its key with its passes, or a drop with a policy reason or, never for direct evidence, the budget; when each occurs is in `FateTells` |
| ContextAssembly.FateTells | backend/src/ragstudio/services/context_assembly_service.py:61-110 | When each fate occurs: a candidate is refused for the budget if and only if its key is not taken, it has no policy reason, it is not direct, and its tokens and those admitted before it exceed the budget; likewise for folding, each policy reason and admission |
| ContextAssembly.PolicyTells | backend/src/ragstudio/services/context_assembly_service.py:187-197 | Which policy reason applies, from the status, the risks and the ranking of the candidate |
| ContextAssembly.OrderTells | backend/src/ragstudio/services/context_assembly_service.py:51-52 | Candidates are taken by rank, exact references first and exact Arabic next, and within a rank as they came |
| ContextAssembly.KeyTells | backend/src/ragstudio/services/context_assembly_service.py:162-163 | Candidates share a key by chunk id, or without one by their stripped and folded text |
| ContextAssembly.CutTells | backend/src/ragstudio/services/context_assembly_service.py:100-110 | A text is cut exactly when it is over the hard limit |
| ContextAssembly.NoticesAreListed | backend/src/ragstudio/services/context_assembly_service.py:82-110 | An admission over the budget and a cut text are always noticed, with their tokens |
| ContextAssembly.PassesComeFrom | backend/src/ragstudio/services/context_assembly_service.py:61-71 | Every pass of an item was one of an admitted or folded candidate with its key |
| ContextAssembly.DropsAreOrdered | backend/src/ragstudio/services/context_assembly_service.py:72-110 | Nothing else is listed: every drop tells of one candidate, refused for this reason or admitted with this notice, and drops stand in the order of the candidates |
| ContextAssembly.EvidenceIsOrdered | backend/src/ragstudio/services/context_assembly_service.py:52-152 | Every item comes from an admitted candidate, with its text and passes, at the place it had when that one was admitted |
| ContextAssembly.KeysAreDistinct | backend/src/ragstudio/services/context_assembly_service.py:61-71 | No two admitted items have the same key |
| ContextAssembly.GroundedExactly | backend/src/ragstudio/services/context_assembly_service.py:151-159 | The status is grounded if and only if some direct candidate has no policy reason to be dropped, duplicates included |
| ContextAssembly.MergePasses | backend/src/ragstudio/services/context_assembly_service.py:262-267 | Merging passes keeps the first list in front and adds exactly what is new |
| EvidenceWindows.EvidenceGraph.constructor | backend/src/ragstudio/services/evidence_graph.py:19-28 | The index gives the last place of every key |
| EvidenceWindows.EvidenceGraph.VisualWindowAfterAnchor | backend/src/ragstudio/services/evidence_graph.py:60-98 | The window the specification gives, scan and both anchors |
| EvidenceWindows.EvidenceGraph.VisualWindowBeforeAnchor | backend/src/ragstudio/services/evidence_graph.py:100-138 | The same, scanning backwards |
| EvidenceWindows.EvidenceGraph.Collect | backend/src/ragstudio/services/evidence_graph.py:73-83 | The scan with its early stops yields the body and the anchor it stopped at |
| EvidenceWindows.BeforeIsAfterReversed | backend/src/ragstudio/services/evidence_graph.py:60-138 | With unique keys the window before is the reverse of the window after in the reversed document, with next and previous anchors swapped |
| EvidenceWindows.WindowHolds | backend/src/ragstudio/services/evidence_graph.py:73-83 | A block is in a window if and only if it stands later, has text, is accepted, and nothing up to it is an anchor or too many pages away |
| EvidenceWindows.WindowAnchorsTell | backend/src/ragstudio/services/evidence_graph.py:60-98 | The next anchor is the first block behind that ends the scan, if that is an anchor; the previous one is the nearest anchor in front |
| EvidenceWindows.UnknownAnchor | backend/src/ragstudio/services/evidence_graph.py:60-138 | An anchor that is not in the document has an empty window and no neighbours |
| EvidenceWindows.StopsTell | backend/src/ragstudio/services/evidence_graph.py:140-156 | A block ends the scan when it has text and is an anchor or is more pages away than allowed, all of these being known |
| EvidenceWindows.WindowsAreDisjoint | backend/src/ragstudio/services/evidence_graph.py:73-83 | Windows after different anchors share no block |
| EvidenceWindows.WindowsMakeUpDocument | backend/src/ragstudio/services/evidence_graph.py:60-98 | With no page limit and every block accepted, anchors and windows are exactly the text-bearing blocks from the first anchor on |
| MetadataMerge.MergeAtPath | backend/src/ragstudio/services/domain_metadata_ai_suggester.py:1277-1291 | What the merge holds at every path, from what the two trees hold there |
| MetadataMerge.ValuesTell | backend/src/ragstudio/services/domain_metadata_ai_suggester.py:1277-1291 | Where both trees have a value: a baseline that says nothing gives way to the suggestion, two lists are merged, and any other baseline value that is no dictionary facing a dictionary stays |
| MetadataMerge.OneSideTells | backend/src/ragstudio/services/domain_metadata_ai_suggester.py:1277-1291 | Where one tree has a value that is what the merge has, except below a baseline value that says something |
| MetadataMerge.BaselineSurvives | backend/src/ragstudio/services/domain_metadata_ai_suggester.py:1180-1291 | A baseline scalar that is not None, "" or "unknown" survives at every path |
| MetadataMerge.KeysOfBoth | backend/src/ragstudio/services/domain_metadata_ai_suggester.py:1277-1291 | Where both trees have a dictionary the merge has exactly the keys of both |
| MetadataMerge.MergedListsHold | backend/src/ragstudio/services/domain_metadata_ai_suggester.py:1216-1237 | Merged lists have no duplicates, begin with the baseline items, and hold exactly the items of both, empty strings among strings excepted |
| MetadataMerge.MergingAgainChangesNothing | backend/src/ragstudio/services/domain_metadata_ai_suggester.py:1277-1291 | Merging the same suggestion again changes nothing for every baseline if and only if the suggestion is clean |
| MetadataMerge.MergeLists | backend/src/ragstudio/services/domain_metadata_ai_suggester.py:1225-1237 | The loop with its set of seen items yields the merged list |
| MetadataMerge.MergeUniqueStrings | backend/src/ragstudio/services/domain_metadata_ai_suggester.py:1216-1223 | The loop yields every non-empty string once, in order |
| MetadataMerge.DeepMergeDicts | backend/src/ragstudio/services/domain_metadata_ai_suggester.py:1277-1291 | The recursive loop, over the keys in any order, yields the merge |
| ContractCompiler.UnverifiedIsSwitchedOff | backend/src/ragstudio/services/domain_metadata_contract_compiler.py:33-47 | If any of the five sections is there with its type, validation did not verify the contract, and validation refused it or execution did not verify it, then no anchor comes out verified and any resolution section is disabled |
| ContractCompiler.CompilingTells | backend/src/ragstudio/services/domain_metadata_contract_compiler.py:33-47 | What compiling comes to in each of three cases: demoted, filled in, or left alone |
| ContractCompiler.DemotedTells | backend/src/ragstudio/services/domain_metadata_contract_compiler.py:266-275 | What a demoted contract is, field by field: three anchors, resolution section and nothing else |
| ContractCompiler.ExecutionTells | backend/src/ragstudio/services/domain_metadata_contract_compiler.py:207-211 | Execution demotes the contract exactly when it says unverified |
| ContractCompiler.ValidationTells | backend/src/ragstudio/services/domain_metadata_contract_compiler.py:214-263 | What validation makes of the metadata in each case |
| ContractCompiler.VerifyingTells | backend/src/ragstudio/services/domain_metadata_contract_compiler.py:231-263 | Which anchors get verified, with which type and source, and that nothing else changes |
| ContractCompiler.SchemaTypeTells | backend/src/ragstudio/services/domain_metadata_contract_compiler.py:231-234 | Verified anchors get the type of the selected candidate, otherwise that of the schema |
| ContractCompiler.SelectedTells | backend/src/ragstudio/services/domain_metadata_contract_compiler.py:278-301 | The selected candidate is the first of those listed under "candidates" that matches, and empty if none does |
| ContractCompiler.MatchTells | backend/src/ragstudio/services/domain_metadata_contract_compiler.py:278-301 | A candidate is the selected one exactly when its expressions are those that were selected |
| ContractCompiler.DefaultsTell | backend/src/ragstudio/services/domain_metadata_contract_compiler.py:87-155 | Which fields an executable contract fills in, and with what, where nothing is there |
| ContractCompiler.ReadingTells | backend/src/ragstudio/services/domain_metadata_contract_compiler.py:313-326 | When the contract that is read can be executed |
| ContractCompiler.GroupsTell | backend/src/ragstudio/services/reference_contracts.py:158-180 | Which groups are required: those of the template, otherwise of the first list that names any |
| ContractCompiler.TogetherTells | backend/src/ragstudio/services/domain_metadata_contract_compiler.py:391-407 | When context and unit anchors are required together |
| ContractCompiler.SelectedAnchorsAreVerified | backend/src/ragstudio/services/domain_metadata_contract_compiler.py:214-263 | With verified validation and a known strategy the verified anchors are exactly the selected ones, context and unit anchor only together |
| ContractCompiler.CheckingTwice | backend/src/ragstudio/services/domain_metadata_contract_compiler.py:207-263 | Applying execution status and validation again changes nothing |
| ContractCompiler.CompilingTwice | backend/src/ragstudio/services/domain_metadata_contract_compiler.py:33-47 | However contracts are read, compiling twice is compiling once if and only if it is not the case that execution says unverified, validation says verified, the contract can be executed and there was no resolution section |
| ContractCompiler.CompilingMetadataTwice | backend/src/ragstudio/services/domain_metadata_contract_compiler.py:33-47 | With the contract read as the source reads it, compiling twice is compiling once if and only if the metadata itself does not have these four properties |
| ContractCompiler.CheckingKeepsContract | backend/src/ragstudio/services/reference_contracts.py:135-180 | Demoting and verifying anchors changes nothing of the contract that is read from the metadata |
| ContractCompiler.ContractSwitchesOnOnce | backend/src/ragstudio/services/domain_metadata_contract_compiler.py:33-47 | Metadata with a schema type, an identity field and a selected anchor for which compiling twice differs from compiling once, whatever the templates, expressions and case folding are |
| ContractCompiler.MetadataCompiler.Compile | backend/src/ragstudio/services/domain_metadata_contract_compiler.py:33-47 | The steps in place yield the compiled metadata, which `CompilingTells` describes from the fields |
| ContractCompiler.MetadataCompiler.ApplyValidation | backend/src/ragstudio/services/domain_metadata_contract_compiler.py:214-263 | Rewrites the structure to the one with the selected anchors verified |
| ContractCompiler.MetadataCompiler.ApplyExecutionStatus | backend/src/ragstudio/services/domain_metadata_contract_compiler.py:207-211 | Demotes the contract exactly when execution says unverified |
| ContractCompiler.MetadataCompiler.DemoteReferenceContract | backend/src/ragstudio/services/domain_metadata_contract_compiler.py:266-275 | No anchor is left verified and a resolution section is off |
| ContractCompiler.MetadataCompiler.DemoteAnchors | backend/src/ragstudio/services/domain_metadata_contract_compiler.py:304-310 | Sets the three anchors to unverified and leaves the rest of the structure alone |
| ContractCompiler.MetadataCompiler.SelectedCandidate | backend/src/ragstudio/services/domain_metadata_contract_compiler.py:278-301 | The first candidate whose expressions are the selected ones |
| LikeEscape.ThreeReplacesAreOnePass | backend/src/ragstudio/services/chunk_lexical_search_repository.py:176-177 | The three replacements one after the other equal one escape per special character |
| LikeEscape.EscapeIsReadable | backend/src/ragstudio/services/chunk_lexical_search_repository.py:176-177 | An escaped term is a well-formed pattern of exactly its own characters |
| LikeEscape.EscapeIsInjective | backend/src/ragstudio/services/chunk_lexical_search_repository.py:176-177 | Different terms have different patterns |
| LikeEscape.EscapingKeepsMeaning | backend/src/ragstudio/services/chunk_lexical_search_repository.py:134-136 | The pattern of a term matches a text if and only if the term stands in the text, letter case folded |
| LikeEscape.EnglishPrefilter | backend/src/ragstudio/services/chunk_lexical_search_repository.py:119-159 | The two statements select the first texts that contain every term, or any term when none contains every one |

## Left out

- ProjectionRuns.RunIsGood: requires every event of the run to be safe, because without it the promise is false (`MarkedRecordLeaks`, `LostRecordLeaks`); an unsafe event may be made good by a later write, of which `ReturnedMeansGone` gives the exact account.
- ProjectionRuns.DeletedDocumentIsGone: has the same condition.
- MetadataMerge.BaselineSurvives: says of a list at a path only that a list stays there; what it holds is in `MergeAtPath` and `MergedListsHold`.
- SplitAlignment.SplitReferenceUnit: the text of the unit is taken before noise cleaning.
- HardSplit.HardSplitText: the lower bound of the window is any number from 1 to the limit, not the one the settings give.
- ReadingOrder.BandedVisualOrder: coordinates are real numbers, without rounding; whether a document is read from right to left is an input.
- LikeEscape.EscapingKeepsMeaning: folding letter case is a map from characters to characters; how terms are found in a query is not part of this model.
- LikeEscape.EnglishPrefilter: the filter on documents and the order of the rows are those of the input.
- GraphStore.GraphStore.ReplaceGraph: nodes carry no properties but their ids; labels with backticks are not quoted; relationship types come in any order, not sorted.
- Projection.Project: the normal form of relationship types is an arbitrary function; properties of nodes are left out but for the references.
- QualityPolicy.ApplyParserQualityActionPolicy: flags are sets, the sorted lists that the source makes of them are not modelled; case folding is an arbitrary function.
- ContextAssembly.Assemble: page, breadcrumb, layout summary and inclusion reason of an item are left out; they are read off the candidate.
- ContextAssembly.EveryCandidateAccounted: the notices that go with an admission are in the list of drops; `DropsAreOrdered` tells them apart.
- EvidenceWindows.EvidenceGraph.constructor: the blocks by page are left out, and so are neighbourhoods, which only slice the list.
- ContractCompiler.CompilingMetadataTwice: the fields of a template, the named groups of a regular expression and case folding are arbitrary functions; expressions that do not compile, for which the source raises, are left out.
- MetadataMerge.MergeLists: a number is an integer or a real number, without NaN and infinities, and objects that JSON cannot express do not occur.
- ProjectionRunner.GraphProjectionRunner.MaterializePending: projection run ids and error texts are left out.
- ProjectionRunner.GraphProjectionRunner.DeleteGraph: the stores of the protocol hold nodes only, so the count of relationships is left out here; `GraphStore.GraphStore.DeleteGraph` has it.
- ProjectionRunner.GraphProjectionRunner.DeleteDocument: the runtime index, the other tables and the files of the document are left out, and so are a document that is not there and one with an active job, for which nothing is done.
- ProjectionRunner.GraphProjectionRunner.DeleteDocumentGraph: the count of relationships and the reason texts are left out.
- `rematerialize_document` adds a record without pruning older ones and is not part of the protocol.
- Preventing deletes and writes from overlapping (the document lock and the check for active jobs) is assumed, not modelled.
- HTTP, language models, the parser, the Neo4j driver and the database session: stores are sets and maps with explicit commit and rollback.
- Regular expression engines (the few expressions of the splitter are written out as predicates on characters), Unicode normalisation and the cleaning of parser noise.
- The job lifecycle, the repair pass after the quality gate, redaction and URL rewriting, the classifier's cache, proof packets, schemas and settings are not part of this model: they keep no state that the promises above depend on.
