# Verified model of the mail automation core

This project models the parts of the mail automation service in which state, branching and text rewriting
interact, and proves what they keep. Seven cores are covered, one or more modules each.

1. **Connector templates** (`Json`, `JsonStrings`, `JsonStructure`, `JsonWriter`, `Template`, `TemplateProofs`,
   `TemplateValues`, `TemplateSeam`, `ConnectorContext`, `ResponseMapping`). A template is JSON text in which
   `{{key}}` is replaced by an escaped value, and the result is parsed. `Json` is a lexer and parser after sections
   2 to 7 of RFC 8259 that keeps, for each character of a string literal, whether it was written raw or as an
   escape; `JsonStrings` decodes literals and models the escaper, and `JsonWriter` writes values and reads them
   back. The main theorem: rendering and then parsing is parsing and then filling, with the exact condition;
   `TemplateValues` says what each placeholder is replaced by. The context builder, the approval-time checks and
   the executor's field extraction are connected to it; what a path finds in a response and whether a pattern
   compiles are parameters of the last.
2. **Connector lifecycle** (`Lifecycle`, `LifecycleRuns`, `ConnectorStore`). The `connector_configs` table is a
   map; `ConnectorStore.Store` changes it statement by statement, with row counts, unique-index errors, lock
   conflicts and rollbacks; `LifecycleRuns` lets any number of approvals, each split into its separate reads and
   its transaction, interleave with every other lifecycle call.
3. **Draft sending** (`Drafts`, `DraftRuns`, `DraftDoubt`). Senders that lock by compare-and-set and then write
   unconditionally, against editors and discarders; a sender may stop for good between any two steps, the mail
   server is an oracle, and a commit may fail, or take effect and still be reported as failed (`DraftDoubt`).
4. **Text chunker** (`Chunker`, `ChunkBounds`, `ChunkCoverage`, `ChunkGroups`). The recursive splitter and the merging
   loop with overlap, as loops proved against recursive specifications: how long the chunks get, what they keep, and
   how they are put together.
5. **Action outbox** (`Outbox`, `OutboxRuns`, `Dispatcher`). Attempts, crashes and sweeps over the idempotency
   log; then ticket creation and replies over retries of one email.
6. **LLM client side** (`ClientCache`, `CircuitBreaker`, `Messages`). A cache that answers as if it were not
   there, a breaker that agrees with its history, a message list rewriter.
7. **Rate limiter and id filter** (`RateLimiter`, `IdFilter`).

A method that loops or changes state is proved equal to a specification function; what the code is for is then
proved about that function: what it keeps, and what it gives and when it goes through, said without its own
body. In the run modules a run is any list of steps, a step that is not enabled leaves
the state as it is, and the theorems speak of the state after any run.

## Where the code and its documentation disagree

The model follows the code; the lemmas that show it are named.

- `split_text` promises chunks of at most `chunk_size` (app/rag.py:240). It keeps that for every text exactly when
  `chunk_size` is positive and the overlap is `chunk_size` or more, 0, -1 or -2 (`SizeKeptExactly`). For an overlap
  in between, the default included, the bound is `chunk_size + overlap + 1`, and it is reached (`ChunkBound`,
  `BoundIsReached`); with an overlap of -3 or less the whole text can come back as one chunk
  (`HiddenComesBackWhole`).
- `execute_idempotent_action` promises at-most-once execution (app/action_outbox.py:28-29). That holds for
  serial attempts whose completions commit, and fails for two overlapping attempts and after a lost completion
  (`ReturnsAccountedFor`, `OverlapRunsTwice`, `LostCompletionRepeats`).
- docs/CONFIGURATION.md:90 gives the deduplication a window of 60 seconds; a completed key is never run again
  (`LaterAttemptsReuse`).
- A connector that reports failure by its return value is booked as completed, and a failed ticket is never retried
  (`FailedTicketIsNeverRetried`). The dispatcher answers "sent" whenever it lives through the reply: a reply that the
  mail server refused, or whose sending raised, is reported as sent, and one that is booked already is reported as
  sent without another mail (`ReportedAsSent`). A refused one is never mailed again (`FailedSendIsNeverRetried`); the
  others are, by the next handling (`ResentExactlyWhenNotBooked`).
- The repository's own README.md (line 141) and docs/RUNBOOK.md:189 describe an exponential cooldown with a single
  probe; the code has one fixed timeout and then starts again from zero (`OutageLastsTheTimeout`). The default
  threshold is 5, not 3.
- `update_draft` says it updates the recipient (app/draft_service.py:300); the sender never reads it
  (`RecipientEditIsIgnored`).
- The approval-time check and the executor do not agree on which response fields are configured, and approval does
  not look at patterns at all: `AcceptedNames` says for each response when the result of an accepted mapping has its
  required fields, `AcceptedDelivers` when it has a value for each of them, and `AcceptedNamesAlways` when it has them
  for all responses. `AcceptedButNotDelivered` gives a mapping that never yields them, and `AcceptedThenRaises` the
  mappings with a pattern that does not compile, which the executor raises on as soon as the path finds a text.
- Checks of one sender that overlap can exceed the rate limit: with k at a time by up to k - 1 emails, and never by
  more (`OverlapBound`, `OverlapBoundIsReached`).
- A rate-limit check whose read and increment are separated by the expiry of the counter blocks the sender for
  good (`StaleReadBlocksForever`).

## Model

| member | source | states |
|---|---|---|
| JsonStrings.EscapeReads | app/connector_executor.py:95-96 | the lexer reads an escaped value back as the value's own units, whatever it contains and whatever follows |
| JsonStrings.EscapeRoundTrip | app/connector_executor.py:95-100 | escaping and decoding give a string back if and only if it holds no split surrogate pair |
| JsonStrings.ScalarDoesNotJoin | app/connector_executor.py:95-100 | the units of real Unicode text decode to it and cannot join with a neighbouring half of a surrogate pair |
| JsonStrings.DecodeConcat | app/connector_executor.py:98-100 | decoding goes over concatenation unless two halves of a surrogate pair meet there; then exactly one character fewer comes out |
| JsonStructure.MapAgrees | app/connector_executor.py:98-100 | two ways to rewrite the string literals of a JSON value give the same value if and only if they agree on each literal in it |
| JsonStructure.ParseMap | app/connector_executor.py:98-100 | parsing commutes with any change made inside string literals, and neither direction gains or loses validity |
| JsonStructure.ValidHasNoTwoOpens | app/connector_executor.py:98-100 | in valid JSON two opening braces are never adjacent outside a string literal, so every placeholder is inside one |
| JsonWriter.DumpsThenLoads | app/connector_executor.py:74-100 | a value written and read again, item by item and member by member in order, is the value if and only if no string in it holds a split surrogate pair |
| Template.KeyIsNamed | app/context_data.py:37-46 | the sixteen context keys have distinct names, and each is found under its own name |
| TemplateProofs.RenderSucceeds | app/connector_executor.py:65-98 | rendering goes through exactly when every key it meets is known and has a value, and otherwise reports one that is not |
| TemplateProofs.RenderInString | app/connector_executor.py:77-98 | within a string literal rendering fills the units and leaves the end of the literal where it was |
| TemplateProofs.RenderTokens | app/connector_executor.py:98-100 | the token stream of the rendered text is the template's, with each placeholder replaced inside its literal |
| TemplateProofs.RenderThenRead | app/connector_executor.py:65-104 | a template that is valid JSON renders to valid JSON with the same structure, whatever the values are |
| TemplateProofs.PiecesDecode | app/connector_executor.py:77-100 | pieces put next to each other decode one by one when no two of them meet inside an astral character, and otherwise to a shorter string |
| TemplateProofs.FilledStringMeans | app/connector_executor.py:77-100 | a filled literal decodes to its literal parts and the values exactly as chosen, whatever quotes, backslashes or braces they hold, if and only if it has no such seam |
| TemplateProofs.TextIsSeamless | app/connector_executor.py:89-96 | there is no seam when the values are Unicode text and no placeholder follows half of an escaped character |
| TemplateProofs.RenderMeaning | app/connector_executor.py:65-104 | for every valid template and every context holding its keys, substituting and then parsing equals parsing and then substituting, if and only if no string literal has a seam |
| TemplateProofs.RenderMeaningOfText | app/connector_executor.py:65-104 | so it does for values that are Unicode text in a template in which no placeholder follows half of an escaped character |
| TemplateValues.HoleHoldsItsValue | app/connector_executor.py:77-98 | for each of the sixteen keys, the template that is its placeholder renders and parses to the value the context has under that key, whatever else it holds, unless it is a subject that says nothing |
| TemplateValues.EmptySubjectIsReplaced | app/connector_executor.py:90-94 | for a subject that says nothing it is the subject taken from the body |
| TemplateValues.TextAndHole | app/connector_executor.py:77-98 | in any text, what is not a placeholder is copied and the placeholder is replaced by its value, escaped |
| TemplateValues.OnlyNamedKeysMatter | app/connector_executor.py:77-98 | two contexts that agree on the keys a template names, and on the body where the subject says nothing, render it alike |
| TemplateValues.SubjectIsTheFirstLine | app/connector_executor.py:91-94 | the subject taken from a body is its first line when that has 3 to 60 characters, else the line cut to 60, or the standing subject |
| TemplateSeam.SeamLosesACharacter | app/connector_executor.py:89-100 | with the template "{{subject}}{{body}}", every subject that ends in the first half of an astral character and every body that begins with the second: the rendered text parses to one character where the filled template has two halves |
| ConnectorContext.BaseContext | app/context_data.py:115-159 | the cheap keys are always there, a reference key is empty exactly when the email named nothing, and a given reference stays under its own key |
| ConnectorContext.BaseSays | app/context_data.py:141-159 | client, sender, body, cleaned body, customer name and conversation are those of the email, with the defaults for what is missing |
| ConnectorContext.TriageOfBase | app/context_data.py:154-156 | intent, sentiment and priority are those given, or their defaults |
| ConnectorContext.ReferencesOfBase | app/context_data.py:136-139 | a reference that was not given is the first one given of reference, order, payment and ticket |
| ConnectorContext.SubjectIsMeaningful | app/utils.py:4-15 | the normalised subject is never empty, and it is a no-subject marker if and only if the subject given says nothing and the head of the body's first line is such a marker |
| ConnectorContext.ExpensiveExactlyWhenReferenced | app/connector_executor.py:338-348 | the expensive keys computed are exactly those the templates refer to, and nothing else of the base context changes |
| ConnectorContext.ExpensiveSays | app/connector_executor.py:341-345 | the summary and the issue description are the two answers computed for them |
| ConnectorContext.ConnectorSendsTheValue | app/connector_executor.py:338-352 | from email to request: a body that is one placeholder is sent as the value of its key, and no headers are sent |
| ConnectorContext.ApprovedConfigRenders | app/connector_config/validation.py:58-72 | templates that passed the check render for an email if and only if none of them uses a reference key while the email names nothing |
| ConnectorContext.ValidatorAgreesWithRenderer | app/connector_config/validation.py:58-72 | the renderer reports an unknown key only for templates the check refuses, and renders none of those |
| ResponseMapping.ApprovalAsks | app/connector_config/validation.py:13-55 | for each of the four triggers a mapping is approved if and only if it configures the trigger's fields, in either style, and lists no name that is not hashable; for any other trigger every mapping is |
| ResponseMapping.WrittenMappings | app/connector_config/validation.py:34-47 | a mapping is read from its text: the text of an object is approved if and only if the object is |
| ResponseMapping.ApplyResponseMapping | app/connector_executor.py:243-316 | the two loops over the mapping compute the result that the lemmas below are about, or raise where it raises |
| ResponseMapping.RaisedExactly | app/connector_executor.py:286-314 | reading the entries raises if and only if some entry with a usable name has a name that is not hashable, or a pattern that does not compile and a path that finds a text |
| ResponseMapping.CollectedExactly | app/connector_executor.py:286-316 | otherwise a name is in the result if and only if some entry has it, and the last such entry gives its value |
| ResponseMapping.FieldIsTheMatch | app/connector_executor.py:291-314 | that value is None without a path, what the path finds, or, for a text and a pattern, the match of the pattern, or the text where nothing matches |
| ResponseMapping.OneFieldGetsTheMatch | app/connector_executor.py:270-314 | from mapping to result, in either style: a field whose pattern matches the text that its path finds gets the match |
| ResponseMapping.AcceptedRaisesExactly | app/connector_executor.py:262-305 | for an approved mapping the executor raises if and only if pagination is no object or an entry trips over its pattern |
| ResponseMapping.AcceptedNames | app/connector_executor.py:243-316 | for one response, the result of an approved mapping has every required name, with whatever value, if and only if nothing raises and the mapping lists its fields, or gives each required one a usable entry, or has no usable entry and hands on a response that has them |
| ResponseMapping.AcceptedDelivers | app/connector_executor.py:243-316 | and each required name has a value that is not null if and only if nothing raises and its last entry finds something, or the response handed on has one |
| ResponseMapping.AcceptedNamesAlways | app/connector_executor.py:283-316 | every response gives all required names if and only if the mapping does not rely on the response being handed on and no entry with a bad pattern finds a text in any response |
| ResponseMapping.AcceptedButNotDelivered | app/connector_config/validation.py:21-55 | a mapping that is approved for ticket creation and yields the one field x, and so no ticket id, for every response |
| ResponseMapping.AcceptedThenRaises | app/connector_executor.py:304-305 | for every pattern that does not compile or is no string, in either style: the mapping is approved for ticket creation and raises on every response in which its path finds a text |
| Lifecycle.SwapExchanges | app/connector_config/lifecycle.py:227-282 | a swap that commits trades exactly one live row for one pending row of the client, so the live count stays, without a cap check |
| Lifecycle.SwapCaps | app/connector_config/lifecycle.py:227-282 | a swap keeps the caps if and only if it has a row to take offline, commits nothing, or finds the client below its cap |
| Lifecycle.ActivateCaps | app/connector_config/lifecycle.py:152-195 | an activation keeps every client within the caps |
| Lifecycle.InsertCaps | app/connector_config/lifecycle.py:49-119 | an insert keeps every client within the caps |
| Lifecycle.InsertExactly | app/connector_config/lifecycle.py:49-119 | an insert goes through if and only if the status is one of the three, the encoding has its parameter, nothing is disturbed and, unless it is a draft, the client is below its cap and the slot is free; the row stored is the row given and no other changes |
| LifecycleRuns.StepKeeps | app/connector_config/lifecycle.py:37-523 | every step of every actor keeps caps, uniqueness, servable live rows, and what each approval in flight has read |
| LifecycleRuns.CapsAndUniqueness | app/connector_config/table.py:36-41 | in every reachable state at most cap live and cap pending rows a client, and at most one of each a trigger |
| LifecycleRuns.LiveRowsAreServable | app/connector_config/lifecycle.py:125-150 | what was checked before the transaction still holds of every live row: known placeholders, required fields, allowlisted URL |
| LifecycleRuns.LiveConnectorsRender | app/connector_executor.py:338-352 | in every reachable state the templates of a live row render for an email if and only if they use no reference key or the email names something |
| LifecycleRuns.CommitExact | app/connector_config/lifecycle.py:227-307 | a committing approval exchanges the row it read as live for the new one, or activates where none is live, with all else unchanged, or changes nothing |
| LifecycleRuns.ApprovalGoesThrough | app/connector_config/lifecycle.py:125-307 | from every reachable state an undisturbed approval of a servable pending row puts it live, if its trigger is served or the client is below its cap; the row it replaces goes offline and no other changes |
| LifecycleRuns.SubmissionStores | app/connector_config/lifecycle.py:49-119 | a submission stores the row given under the next id if and only if the insert lets it through |
| LifecycleRuns.CallsTakeEffect | app/connector_config/lifecycle.py:310-523 | reject, disable, request, refuse and cancel move exactly the owner's row in the statuses they are for |
| LifecycleRuns.NoGapInService | app/connector_config/lifecycle.py:287-307 | no step of an approval leaves a trigger without a live row that had one, even when the live id it read is stale |
| LifecycleRuns.StagesNeverGoBack | app/connector_config/lifecycle.py:125-523 | over any run a row's stage never goes back, its content never changes, and its id is never given out again |
| LifecycleRuns.LiveOnce | app/connector_config/lifecycle.py:125-523 | an id is live for at most one unbroken stretch and never pending again after it |
| ConnectorStore.Store.InsertConnectorConfigChecked | app/connector_config/lifecycle.py:37-122 | the statements with their checks, error mapping and rollbacks do what the insert transaction is specified to do |
| ConnectorStore.Store.ActivateFirstLive | app/connector_config/lifecycle.py:125-197 | the same for the first activation, whole table and outcome |
| ConnectorStore.Store.SwapToLive | app/connector_config/lifecycle.py:200-284 | the same for the swap: the first UPDATE is undone whenever the second fails |
| ConnectorStore.Store.ApproveConnectorConfig | app/connector_config/lifecycle.py:287-307 | without interference an approval puts a pending row of its trigger live, and its predecessor offline with it, if and only if the row passes every check, there is one to replace or a place under the cap, and no statement is disturbed; every refusal has its own outcome, exactly, and changes nothing |
| ConnectorStore.Store.RejectConnectorConfig | app/connector_config/lifecycle.py:310-336 | a pending row of the client leaves its slot or the caller is told; no other row and no live row changes, and indexes and caps stay kept |
| ConnectorStore.Store.DisableConnectorConfig | app/connector_config/lifecycle.py:422-445 | a live row the caller owns goes offline and its trigger is then served by none; no other row changes, and indexes and caps stay kept |
| ConnectorStore.Store.RequestDeleteDisabledConnector | app/connector_config/lifecycle.py:395-419 | a live or disabled row the caller owns is marked for deletion; no other row changes, and indexes and caps stay kept |
| ConnectorStore.Store.RevertDeletion | app/connector_config/lifecycle.py:474-523 | a row marked for deletion goes back to disabled, never to live; no other row changes, and indexes and caps stay kept |
| ConnectorStore.Store.DeleteDraftConnectorConfig | app/connector_config/lifecycle.py:339-364 | exactly a draft the caller owns is deleted; all that is live or waits for approval survives, and indexes and caps stay kept |
| ConnectorStore.Store.DeletePendingConnectorConfig | app/connector_config/lifecycle.py:367-392 | exactly a pending row the caller owns is deleted; the live rows are the same, and indexes and caps stay kept |
| ConnectorStore.Store.ApproveDeleteConnector | app/connector_config/lifecycle.py:448-471 | a live, disabled or marked row is deleted and never a draft or a pending one; no other row changes, and indexes and caps stay kept |
| Drafts.Store.SendSingle | app/draft_service.py:341-400 | table, mail and answer of one call for every answer of the mail server and every commit that may fail: no lock, no load, a write after the mail that is lost, a recovery that is lost |
| Drafts.Store.BatchSend | app/draft_service.py:427-452 | without an exception, results in order, sent and failed add up to the list and sent is the number of distinct drafts that moved from pending to sent; an exception ends the batch where it stands |
| Drafts.BatchAccounts | app/draft_service.py:427-452 | after any list, duplicates and faults included, a draft is untouched, or was pending and is sent, or was pending and is stuck in sending; at most one is stuck, and only after an exception; every mail has the content from before the batch |
| Drafts.MailsAddUp | app/draft_service.py:371-400 | the mails of a draft in a batch are one if it was sent and one for each mark-sent write that was lost |
| Drafts.SendsExactly | app/draft_service.py:438-444 | an entry mails if and only if no exception came before, its draft was pending, lock and load go through, its mail is accepted and no earlier entry sent it |
| Drafts.RecipientEditIsIgnored | app/draft_service.py:314-316 | whatever else an edit changes, the recipient in it makes no difference to the mail |
| Drafts.MailSays | app/draft_service.py:364-373 | the mail has the reply as its body, the draft's subject marked as a reply exactly once, the customer as recipient, and answers the message id or else in_reply_to |
| Drafts.SendsWhenAllGoesWell | app/draft_service.py:341-400 | with a working database a call mails and marks the draft sent if and only if it is pending, the owner's, and accepted, and each answer stands for its case |
| Drafts.EditStores | app/draft_service.py:291-338 | an edit stores each text given in its own field of a pending draft of the owner, and touches no other field and no other row |
| Drafts.DiscardEnds | app/draft_service.py:403-424 | a discard ends a pending draft of the owner with its reason, and touches no other row |
| DraftRuns.StepKeeps | app/draft_service.py:291-424 | every step of every sender, editor and discarder keeps the ownership invariant |
| DraftRuns.SendingMeansOneOwner | app/draft_service.py:346-357 | in every run a draft is in sending if and only if a sender owns it, alive or dead, and never two |
| DraftRuns.UnconditionalWritesHitSending | app/draft_service.py:373-400 | the writes that look at no status only ever overwrite sending, and only their own row |
| DraftRuns.OwnedContentIsFrozen | app/draft_service.py:291-338 | while a draft is owned no step changes its content or the mail made from it |
| DraftRuns.EditedThenMailed | app/draft_service.py:291-373 | from any state, a pending draft that is edited, locked, loaded and accepted leaves a mail with the new reply under the new subject, to the customer it answers |
| DraftRuns.StepsTakeEffect | app/draft_service.py:371-400 | a new draft is pending with its content, and a sender that gets to write takes its own draft to sent, or back to pending, and is done |
| DraftRuns.SentAndDiscardedAreFinal | app/draft_service.py:381-424 | where no commit is in doubt, a sent or discarded row is never written again |
| DraftRuns.AcceptedMailsAccountedFor | app/draft_service.py:371-400 | mails accepted for a draft exceed the lost mark-sent writes by at most one, and by exactly one once it is sent, with the content of the last mail |
| DraftRuns.LostWriteSendsTwice | app/draft_service.py:394-400 | from any such state a lost mark-sent write reopens the draft and the same content is mailed again |
| DraftRuns.RecipientEditsNeverMail | app/draft_service.py:291-400 | over any run, with all edits of recipients taken out of it the same mails are accepted |
| DraftDoubt.FinalExactly | app/draft_service.py:371-424 | from any state at all and with commits in doubt, a sent or discarded row stays as it is forever if and only if no sender of its draft is still on its way |
| DraftDoubt.FinalInEveryRun | app/draft_service.py:371-424 | so it does after any run with commits in doubt |
| DraftDoubt.FinalAfterPlainRun | app/draft_service.py:381-424 | a row that is sent or discarded after a run without them is final whatever happens later, commits in doubt included |
| DraftDoubt.DoubtSendsTwice | app/draft_service.py:381-400 | from any such run, a mark-sent commit in doubt leaves a sent row that is not final, and the same content is mailed again though no write was lost |
| DraftDoubt.DoubtSharesADraft | app/draft_service.py:373-400 | and a write-back in doubt lets a second sender lock the draft that the first one will still write to |
| Chunker.SplitRecursive | app/rag.py:259-285 | the recursive loop computes the specified splits |
| Chunker.MergeSplits | app/rag.py:289-313 | the merging loop computes the specified chunks |
| Chunker.SplitText | app/rag.py:250-315 | the whole function computes the chunks the theorems are about |
| ChunkCoverage.SplitThenJoin | app/rag.py:275 | joining the pieces of a split gives the text back |
| ChunkGroups.PiecesStayWhole | app/rag.py:259-285 | a text that does not fit is cut at its first separator only: a piece that fits stays whole, and one that does not is cut by the finer separators; a text that fits is not cut |
| ChunkGroups.SentencesKeepTheirMarks | app/rag.py:280 | pieces at a sentence separator, put together with blanks, are the text with a mark at its end |
| ChunkGroups.LongWordIsCut | app/rag.py:268-273 | the pieces of a word are the windows of chunk_size characters that start every chunk_size - overlap, or every 1 |
| ChunkGroups.ChunksAreFullGroups | app/rag.py:289-315 | the base splits, stripped, are cut into consecutive groups, one a chunk: each chunk without its overlap is its group joined by line breaks, the next split would not have fitted, and the overlap is there exactly when there is one to repeat |
| ChunkGroups.ShortTextIsWhole | app/rag.py:254-256 | a text that fits comes back as one chunk, stripped |
| ChunkBounds.BaseSplitsFit | app/rag.py:259-287 | every base split has at most chunk_size characters, so the recursion always ends in pieces that fit |
| ChunkBounds.OversizedBranchIsDead | app/rag.py:308-310 | the branch for a split that does not fit by itself is never taken |
| ChunkBounds.ChunkBound | app/rag.py:238-315 | every chunk has at most chunk_size characters, overlap + 1 more only for an overlap between 0 and chunk_size, unless an overlap of -3 or less makes the text come back whole |
| ChunkBounds.SizeKeptExactly | app/rag.py:238-315 | all chunks of all texts have at most chunk_size characters if and only if chunk_size is positive and the overlap is at least chunk_size, or 0, -1 or -2 |
| ChunkBounds.HiddenComesBackWhole | app/rag.py:268-315 | for every size and every overlap of -3 or less, a text longer than the size that comes back as one chunk |
| ChunkBounds.BoundIsReached | app/rag.py:303-305 | for every size and every positive overlap below it, a text whose second chunk has exactly chunk_size + overlap + 1 characters |
| ChunkCoverage.Coverage | app/rag.py:259-315 | when words have at most chunk_size - 3 characters, or there is no overlap, the chunks without their overlap prefixes hold the letters and digits of the text, in order, none lost or repeated |
| ChunkCoverage.NothingIsLost | app/rag.py:259-315 | for any words and an overlap that is not negative, the letters and digits of the text are all there in order |
| Outbox.KeysAgree | app/action_outbox.py:10-15 | without colons in client names and action types, two calls share a key if and only if they agree on folded client, trimmed message id and folded action |
| Outbox.BlanksAndCaseDoNotCount | app/action_outbox.py:10-15 | blanks around client, message id and action do not count for the key, nor the case of client and action, and everything else does |
| Outbox.ColonInClientCollides | app/action_outbox.py:14 | with a colon in a client name two different client and message pairs share a key |
| Outbox.FirstReferenceCounts | app/action_outbox.py:84-93 | the reference kept is the extracted one, or else the first of ticket id, reference number and message id that says anything |
| Outbox.AttemptLeaves | app/action_outbox.py:69-131 | an attempt on an open key leaves it completed, failed or pending, each exactly when, and no other row changed |
| Outbox.SweepExactly | app/action_outbox.py:134-170 | a sweep fails the listed pending rows, keeps their references and changes nothing else |
| Outbox.Table.Execute | app/action_outbox.py:40-131 | one attempt, with each transaction committing, failing or dying, leaves the specified log and answer, and says whether the action ran |
| Outbox.Table.Sweep | app/action_outbox.py:134-170 | exactly the listed rows that are still pending fail |
| OutboxRuns.AttemptIsARun | app/action_outbox.py:40-131 | the undisturbed attempt is one sequence of steps of the interleaved model |
| OutboxRuns.ReturnsAccountedFor | app/action_outbox.py:45-131 | over serial attempts on a key, with crashes and sweeps anywhere, the action returns at most once more than completions were lost, and exactly once more when the key is completed |
| OutboxRuns.LaterAttemptsReuse | app/action_outbox.py:57-68 | once serial attempts completed a key, nothing later changes its row or runs its action, and later attempts are told the first reference |
| OutboxRuns.OverlapRunsTwice | app/action_outbox.py:69-73 | two overlapping attempts on a key that is not completed both run the action and both complete, from any state |
| OutboxRuns.LostCompletionRepeats | app/action_outbox.py:95-123 | a completion that does not commit is recorded as a failure and the next attempt runs the action again |
| Dispatcher.TicketAndReplyKeysDiffer | app/pipeline/dispatcher.py:43-49 | no ticket key is ever a reply key, whatever the emails |
| Dispatcher.TicketsAreSharedExactly | app/pipeline/dispatcher.py:104-124 | emails with ids share a ticket if and only if clients and ids agree, the message id counting before the mail id |
| Dispatcher.RepliesAreSharedExactly | app/pipeline/dispatcher.py:43-49 | replies share a mail if and only if they answer the same message of the same client |
| Dispatcher.NewEmailIsHandled | app/pipeline/dispatcher.py:82-234 | when nothing fails a new email gets the ticket id that the CRM gave, one record of it and one delivered reply |
| Dispatcher.Desk.DispatchOrDraft | app/pipeline/dispatcher.py:12-79 | one reply goes through the outbox under its key, or one draft is asked for, and never both |
| Dispatcher.Desk.CreateTicketAndReply | app/pipeline/dispatcher.py:82-234 | ticket attempt, local record and reply attempt in order, with every way to stop in between |
| Dispatcher.AtMostOneTicketAndReply | app/pipeline/dispatcher.py:104-124 | over any retries and sweeps of an email with a message id, at most one ticket call and one reply call return, up to lost completions, and all replies speak of one ticket recorded once |
| Dispatcher.FailedTicketIsNeverRetried | app/connector_config/dispatch.py:65-96 | one answer of the CRM without a usable reference, once booked, ends every later handling of the email in failure, without another ticket call |
| Dispatcher.RetriedExactlyWhenNotBooked | app/action_outbox.py:69-131 | the next handling calls the CRM again if and only if this one raised, died or lost its completion |
| Dispatcher.ReportedAsSent | app/pipeline/dispatcher.py:40-60 | a handling that gets to a reply reports it as sent if and only if the outbox was entered and the process lived or the reply was booked before; it delivers if and only if the reply was not booked and the mail server took it, so a report on a fresh reply is true if and only if the mail server took it |
| Dispatcher.ResentExactlyWhenNotBooked | app/action_outbox.py:69-131 | the next handling that gets to the reply mails it again if and only if this send raised, died or lost its completion |
| Dispatcher.FailedSendIsNeverRetried | app/pipeline/dispatcher.py:40-53 | a send that returned False is reported as sent, no later handling of the email mails at all, and each that gets to the reply reports it as sent |
| ClientCache.RecentIsByLastUse | app/llm_config.py:375-406 | the reference list of a history holds each key once, ordered by last use |
| ClientCache.TouchKeepsTheLast | app/llm_config.py:389-405 | touching, moving and evicting keep exactly the n keys used last, whatever the history |
| ClientCache.DroppedIsLeastRecent | app/llm_config.py:398-401 | what a call evicts is the one key whose last use is oldest, and only when the cache was full |
| ClientCache.BuiltByACall | app/llm_config.py:389-396 | a client that is there was built at a call for its key, and no call since found it 300 seconds old |
| ClientCache.ReusedExactly | app/llm_config.py:389-405 | a call reuses the client that is there under 300 seconds after it was built and builds one otherwise; the fifty keys used last are there |
| ClientCache.BuiltFromTheConfig | app/llm_config.py:341-372 | a client has the key of its config, the kind of its provider, and the URL of the config where one is given |
| ClientCache.Cache.GetDynamicClient | app/llm_config.py:375-406 | the client returned is the one built afresh for that config and under 300 s old, and order, both maps and stamps stay those of the call history |
| CircuitBreaker.ProvidersAreIndependent | app/llm_circuit_breaker.py:19-43 | the events of other providers might as well not have happened |
| CircuitBreaker.StreakCounts | app/llm_circuit_breaker.py:24-30 | the streak is the number of failures after the last success or observed reset |
| CircuitBreaker.OpenExactly | app/llm_circuit_breaker.py:24-43 | a provider is cut off if and only if as many failures as the threshold stand after its last success or reset and the latest is less than the timeout ago |
| CircuitBreaker.Breaker.IsOpen | app/llm_circuit_breaker.py:32-43 | open if and only if that streak reaches the threshold and its latest failure is less than the timeout ago |
| CircuitBreaker.Breaker.GuardedCall | app/llm_config.py:456-471 | the guarded call runs the provider exactly when the breaker is closed and a client was built, and no other provider's health changes |
| CircuitBreaker.OutageLastsTheTimeout | app/llm_circuit_breaker.py:32-43 | fast-failed calls change nothing, so an outage lasts exactly the timeout and then the count is back at zero |
| CircuitBreaker.FailuresAreSpaced | app/llm_config.py:456-471 | with callers in sequence the breaker trips at exactly the threshold, and failures in a row that are a threshold apart are a timeout apart in time |
| CircuitBreaker.LateFailureExtends | app/llm_circuit_breaker.py:24-30 | with several callers a late failure restarts the timeout |
| Messages.RunsAreMaximal | app/llm_config.py:272-277 | the runs put together give the turns back, none is empty and neighbours differ in role |
| Messages.RunsAreUnique | app/llm_config.py:272-277 | there is no other way to cut turns into maximal runs |
| Messages.Normalise | app/llm_config.py:257-289 | the two loops compute the specified message list and system prompt |
| Messages.SystemPromptIsTheContents | app/llm_config.py:257-285 | the system prompt is the contents of the system messages, in order, joined by blank lines and stripped |
| Messages.TurnsConcat | app/llm_config.py:260-267 | the turns of a list are the turns of its parts in order; with `TurnsOfOne`, one for each user or assistant message |
| Messages.TurnsOfOne | app/llm_config.py:261-267 | a message gives one turn with its content under its role, a missing role counting as user, and any other role none |
| Messages.JoinConcat | app/llm_config.py:272-277 | contents of one role are joined by a blank line, in order |
| Messages.NormalisedIsWellFormed | app/llm_config.py:268-280 | for any messages the list is not empty, starts with user and alternates |
| Messages.EntriesAreJoinedRuns | app/llm_config.py:260-280 | its entries are the maximal same-role runs joined by a blank line, after an opener exactly when the first run is not the user's |
| Messages.NormalisedIsStable | app/llm_config.py:268-280 | normalising again changes nothing |
| RateLimiter.Limiter.CheckSender | app/rate_limiter.py:73-106 | one check answers and updates the counter of its sender as specified and touches no other |
| RateLimiter.SendersShareACounter | app/rate_limiter.py:85-87 | emails are counted together if and only if client and address agree, up to case and blanks around the address |
| RateLimiter.SlidingWindowBound | app/rate_limiter.py:93-103 | any half-open interval as long as the window lets through at most twice the limit less one |
| RateLimiter.BoundIsReached | app/rate_limiter.py:93-103 | for every limit that many do get through |
| RateLimiter.RefusedExactlyWhenFull | app/rate_limiter.py:93-95 | an email is refused if and only if the limit was already let through in the fixed window that is open |
| RateLimiter.ExpiryIsLostExactly | app/rate_limiter.py:93-101 | a counter is left without expiry if and only if it was live at the read and gone at the increment |
| RateLimiter.StaleReadBlocksForever | app/rate_limiter.py:93-101 | such a counter lets the rest of one limit through and then refuses for good |
| RateLimiter.OverlapBound | app/rate_limiter.py:93-103 | with at most k checks between their read and their increment, no fixed window lets through more than the limit plus k - 1, whatever the order and the expiries |
| RateLimiter.OverlapBoundIsReached | app/rate_limiter.py:93-103 | for every limit and every k that many do get through |
| RateLimiter.HalvesMakeACheck | app/rate_limiter.py:92-103 | the read and the increment of a check that nobody gets between are the check as one instant |
| IdFilter.Filter | app/llm_utils.py:114-121 | for any candidates exactly the cleaned ones that no other candidate contains, once each, in first-found order |
| IdFilter.CleaningCuts | app/llm_utils.py:116 | cleaning cuts the blanks around an id and the hashes in front of it, and nothing else |
| IdFilter.KeptAreMaximal | app/llm_utils.py:114-121 | for any candidates, an id is kept if and only if it is itself a candidate, is not empty, needs no cleaning and is in no other candidate |
| IdFilter.KeptIsAnAntichain | app/llm_utils.py:118-119 | for any candidates, no kept id is in another |
| IdFilter.CoverageExactly | app/llm_utils.py:114-121 | every candidate is in some kept id if and only if each candidate that is in no other is not empty and needs no cleaning |
| IdFilter.KeptIsAMaximalAntichain | app/llm_utils.py:89-121 | so of candidates without blanks and hashes, as the patterns produce them, the kept ones are exactly the maximal ones and cover all |
| IdFilter.UncleanIsLost | app/llm_utils.py:116-119 | a candidate that needs cleaning contains its own cleaned form, so that form is never kept |

## Left out

- HTTP, SMTP, MySQL and Redis themselves: a database is a map with atomic commits that may fail, and the network
  and the mail server answer as oracles. A commit that raises counts as rolled back; only `DraftDoubt` also has
  commits that take effect and still raise.
- Transactions are single steps. The row locks and isolation level that make them so are not modelled.
- Model results, scoring, prompts and generated replies: they are arbitrary strings.
- Regular expressions other than the placeholder pattern, and `jmespath`: id candidates are an input, and for the
  fields of a response the value that a path finds, whether a pattern compiles and what it matches are parameters.
  So is which number texts read as zero. The word characters beyond ASCII are a parameter of the placeholder pattern.
- `ResponseMapping.ApplyResponseMapping`: result keys that are not strings, which no required field is. The column
  holds text or nothing, not a dict.
- The digest that stands in for an empty message id in the outbox: neither caller ever passes an empty one.
- `str.lower` is a parameter where keys and providers use it. SHA-256 is treated as injective.
- The size and recursion limits of Python's JSON reader. After rendering, member names that coincide stay separate
  in the parse, where a Python dict keeps the last.
- URL rendering, authentication, OAuth tokens and payload encodings of `execute_connector`: they do not take part
  in the template law.
- The allowlist only grows, a cap is constant over a run, and a URL is its place and its query; the cap column
  and allowlist removal are not part of the model.
- `format_conversation_thread` and `extract_name_from_email`: their results are inputs of the context.
- `ConnectorContext.ApprovedConfigRenders`: the columns hold JSON or nothing, which the JSON column type guarantees.
- `Drafts.Store.BatchSend`: the texts of exceptions in the results are left out.
- The draft statuses `approved` and `rejected`, which no modelled function sets.
- `error_message`, timestamps and reviewers' names of the outbox and connector rows, which decide nothing.
- `Dispatcher.AtMostOneTicketAndReply`: for emails without any id the key falls back to client, sender and subject;
  the bound per key holds there too, but two emails then share a ticket (`NoIdsShareTheTicket`).
- The draft mode of the dispatcher is not idempotent: each handled call asks for a draft. Its count is stated per
  call only.
- `ClientCache.Cache.GetDynamicClient`: one caller at a time; the cache has no lock, and races on it are not
  modelled. A client whose construction raises is not modelled.
- `Messages.Normalise`: contents are strings; a content that is explicitly null is not modelled.
- `RateLimiter.SlidingWindowBound`: each check is one instant. For checks that overlap `OverlapBound` gives the bound
  of a fixed window; an interval across two windows is not bounded there.
- Fallback JSON files, document parsers, analytics, sessions and cost tables: they read, write or report data
  without deciding anything about the protocols above.
- A negative `chunk_size`, for which the original's slices count from the end of the text.
