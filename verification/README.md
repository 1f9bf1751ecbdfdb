# A model of the component SDK's protocols

This project models the protocols at the core of the Python component SDK (`besdk`) and proves what they are for, over
all inputs and all runs. `dafny verify dfyconfig.toml` checks all of it.

* **Authorization and lists** (`Segments`, `Sql`, `Plan`, `PlanCompiler`, `PlanMeaning`, `PlanLimits`, `Evaluation`,
  `ListOrder`, `Cursor`, `Paging`, `Lists`, `ListMeaning`, `ListRequests`). One set of segments has two meanings: a
  three-valued evaluation of one record's facts, and a compiled SQL predicate with numbered placeholders, LIKE
  patterns and a hit bitmap. They are proved to agree, under SQL's NULL logic. Lists add narrowing, filters, sorts and
  a keyset cursor; following the cursors is proved to give exactly the rows that the evaluation allows and the filters
  pass, each once and in order.
* **Canonical encoding** (`Json`, `Utf8`, `Canon`, `CanonForm`, `CanonWriter`, `Decimals`, `DecimalForm`). The printer
  of RFC 8785 JSON (sections 3.2.2.2 and 3.2.3), a general JSON reader, the parser that accepts one byte string per
  value, and normal decimal strings.
* **The event pipeline** (`Outbox`, `OutboxRuns`, `OutboxTables`, `Queue`, `QueueSafety`, `QueueTime`, `QueueTables`,
  `Pipeline`, `PipelineRuns`, `ConsumerTables`, `EventFlow`). Every SQL transaction is one step of a state machine;
  crashes, lost acknowledgements, lease expiry, retention, failovers and restores are steps of the environment.
  `EventFlow` puts the outbox, the queue and the consumer together.
* **The view holder and the cutoff** (`View`, `ViewAnswers`, `ViewRuns`, `Cutoff`). Acceptance of answers, stalls,
  lookups, bounded staleness, and the path from the guard's cutoff to the check before a commit.
* **The call policy** (`Budget`, `Breaker`, `Calls`, `Dependency`). The retry budget, the circuit breaker against a
  specification over its history, the attempt loop, and the rule that only one layer retries, for chains of any depth.
* **Audit and migrations** (`Audit`, `AuditRuns`, `AuditNumbers`, `Migrate`). The purge against its row-by-row
  decision, the durability of committed records over backups and restores, their exact numbering over every run, and
  crash-safe application of migration files.

Code that the source writes as expressions is functions here; code that changes tables, fields or lists step by step is
classes and methods with loops, each proved to leave the state its specification function gives. Run properties are
stated over those specification functions. What an operation means is also stated without them, on the fields of its
inputs alone (`Evaluation`, `ListRequests`, `CanonForm`, `QueueTime`, `ViewAnswers`, and the `Exactly` lemmas
elsewhere).

## Findings

* The compiled equality of a tree atom selects an empty path that the evaluation refuses; the two agree on every path
  exactly when no item's path is empty (`PlanLimits.TreeAgreesExactly`).
* `Segment.check` accepts a list of values on an amount dimension. The database compares numbers and the evaluation
  texts, so any listed text that the database reads as a number has another spelling on which they differ
  (`PlanLimits.InOnAmountDiverges`). It also accepts a bound that is not a decimal string, which the evaluation treats
  as unknown and the database may read, as in `PlanLimits.LooseBoundDiverges`. For one fact the two meanings of an
  atom agree exactly when the atom is faithful to it (`PlanMeaning.AtomExact`, `PlanLimits.IntervalAgreesExactly`),
  and for all facts exactly when no listed value on an amount is read as a number, no path is empty and no loose bound
  lets an amount in (`PlanLimits.AtomAgreesExactly`). The plan theorems ask that of the active segments they read, for
  the row's own facts.
* A decimal is rounded to 100 digits before its digits are counted, so one with more significant digits may be
  accepted under another value; its value is kept exactly when it has at most 100 (`Decimals.NormalKeepsValue`).
* An ordered durable claims by sequence number and reads by transaction. It has one delivery in flight when the two
  orders agree (`QueueSafety.OneInFlight`); any disagreement between two messages allows a run with two
  (`QueueSafety.DisagreementBreaksOrder`).
* The consumer decides "last attempt" from its own setting, the queue from the stored one. A message is always
  accounted for exactly when the consumer's limit is not above the stored one (`PipelineRuns.AccountedExactly`).
* A stall forgets stopped shards too, so an older view of the same generation is adopted after one
  (`ViewRuns.StallForgets`).
* Only the revisions held now are compared (`ViewRuns.AdoptedExactly`). A domain that one accepted view leaves out may
  come back older (`ViewRuns.DomainForgotten`), and so may one whose epoch is written in another text
  (`ViewRuns.SlipsExactly`); otherwise it never goes back (`ViewRuns.NoWayBack`).
* A half-open breaker whose trial never ends admits nothing more (`Breaker.TrialHolds`).
* Of the errors that leave `Dependency.do`, none is retried further up; the user client makes exactly one kind of them
  retryable, the refused credential of a forwarded call (`Calls.ForwardedRefusalIsRetried`).
* An error of the dependency's own kind that is passed upward is retried exactly when its HTTP rendering says
  unavailable although its code does not (`Calls.PassedOnExactly`). What is read from the wire can be so only for a
  platform reason sent over gRPC under another code than its own (`Calls.ReadingCoherent`), as in
  `Calls.IncoherentIsRetried`.
* A run applies exactly the files above the current version (`Migrate.RunExactly`), so a file added below it is never
  applied, in that run or any later one (`Migrate.LateFileSkipped`).

## Model

| member | source | states |
|---|---|---|
| `Segments.SegmentTruth` | besdk/authz/segment.py:218-228 | one segment is false when inactive or an atom is false, true when all are, else unknown, although the loop stops early |
| `Segments.Entitled` | besdk/authz/segment.py:231-244 | the disjunction over the operation's segments, and exactly the fields that some true segment reads |
| `Segments.Evaluate` | besdk/authz/segment.py:276-288 | visibility, the operation's permission (its own segments and visibility), and fields only of a visible record, never a secret one |
| `Evaluation.AtomExactly` | besdk/authz/segment.py:182-215 | an atom is true when the known fact meets it, false when the known fact does not, each said on the fact's own fields, and open otherwise |
| `Evaluation.SegmentExactly` | besdk/authz/segment.py:120-126 | a segment grants only between its own start and end, both as given, with every atom met; not begun or ended it is false |
| `Evaluation.EntitledExactly` | besdk/authz/segment.py:231-244 | an operation is granted exactly by a segment in force whose atoms are all met, and refused exactly when each in force has an atom missed |
| `Evaluation.Check` | besdk/authz/segment.py:263-288 | NOT_FOUND, PERMISSION_DENIED and AUTHORIZATION_UNPROVABLE exactly when due, and exactly the fields that granting segments read, never a secret |
| `Evaluation.AnswersStand` | besdk/authz/segment.py:182-251 | a definite answer stands whatever the facts that could not be obtained turn out to be |
| `Evaluation.DecidedWhenKnown` | besdk/authz/segment.py:182-244 | nothing is left open when every atom asked can be decided |
| `Evaluation.FitsExactly` | besdk/authz/segment.py:128-145 | a segment is accepted exactly with one allowed atom for each declared dimension and none else: none is left unconstrained |
| `Plan.LikeIsSubtree` | besdk/authz/plan.py:49-50 | LIKE on the escaped path with "/%" matches exactly the texts below that path, whatever characters the path has |
| `Plan.Fields` | besdk/authz/plan.py:23-29 | the fields of a bitmap are exactly those of the sets whose bit is set |
| `PlanMeaning.TreeCorrect` | besdk/authz/plan.py:77-85 | the compiled tree items hit exactly the paths the items allow, whatever stands before and after their arguments |
| `PlanMeaning.AtomExact` | besdk/authz/plan.py:64-93 | one atom: conjuncts and evaluation agree on a fact if and only if the atom is faithful to it |
| `PlanMeaning.PlanSelects` | besdk/authz/plan.py:104-126 | the list's predicate under NULL logic selects a row exactly when the evaluation of its facts gives the action, for atoms faithful to those facts |
| `PlanMeaning.PlanFields` | besdk/authz/plan.py:122-126 | the fields of a row's hit bits are exactly the fields the evaluation finds readable |
| `PlanMeaning.ReadableWhereCorrect` | besdk/authz/plan.py:31-36 | readable_where keeps exactly the rows whose hit bits show the field |
| `PlanMeaning.ReadableEverywhereShows` | besdk/authz/plan.py:38-41 | a field that every segment reads is shown by every row the list selects |
| `Evaluation.SelectedInForce` | besdk/authz/plan.py:104-121 | whatever a plan selects is selected by segments in force, of the view operation and of the operation |
| `Evaluation.SelectsExactly` | besdk/authz/plan.py:104-126 | a plan selects a row exactly when segments in force grant viewing it and the operation |
| `Evaluation.HitsExactly` | besdk/authz/plan.py:122-126 | a row's hit bits show a field exactly when a granting segment in force reads it and it is no secret |
| `Evaluation.HitsAreBooleans` | besdk/authz/plan.py:125-126 | a predicate that is NULL because of a NULL column is no hit, and a bit is never NULL |
| `Evaluation.EverywhereExactly` | besdk/authz/plan.py:38-41 | a field is readable everywhere exactly when it is no secret and every segment in force of the operation reads it, and there is one |
| `Evaluation.RefusedExactly` | besdk/authz/plan.py:64-93 | a list is refused exactly when a segment in force has an atom that the database cannot decide |
| `PlanCompiler.Compiler.AtomText` | besdk/authz/plan.py:64-93 | the text and arguments of one atom are those of the specification, or the query is refused and nothing is dropped |
| `PlanCompiler.Compiler.SegmentText` | besdk/authz/plan.py:95-97 | one predicate a segment, its atoms in the order of the dimensions' names |
| `PlanCompiler.CompilePlan` | besdk/authz/plan.py:104-126 | the compilation that appends arguments as it goes is the plan of the specification |
| `PlanLimits.TreeAgreesExactly` | besdk/authz/plan.py:77-85 | compiled tree atom and evaluation agree on every path if and only if no item's path is empty |
| `PlanLimits.AtomAgreesExactly` | besdk/authz/plan.py:64-93 | an atom compiles to what the evaluation says of every row if and only if its lists, paths and bounds are always faithful |
| `PlanLimits.IntervalAgreesExactly` | besdk/authz/plan.py:86-92 | an interval agrees on an amount if and only if both bounds are decimal strings or keep the amount out |
| `PlanLimits.AlwaysCompilable` | besdk/authz/plan.py:64-97 | a segment of always faithful atoms meets the condition of the plan theorems for every record |
| `PlanLimits.InOnAmountDiverges` | besdk/authz/plan.py:73-74 | every list with a value the database reads as a number has a spelling of it that the database selects and the evaluation refuses |
| `Sql.LaterArgs` | besdk/lists.py:136-138 | arguments appended later never change what an earlier placeholder means |
| `ListOrder.BeforeOrder` | besdk/lists.py:229-230 | the order over keys in their own directions with the ID last is a strict order, total on different IDs |
| `ListOrder.ResumeIsStrictlyAfter` | besdk/lists.py:168-178 | the OR of ANDs selects exactly the rows strictly after the cursor's row in the list's order |
| `Cursor.Base64RoundTrip` | besdk/lists.py:124-125 | base64url without padding decodes to the same bytes, for any number of bytes |
| `Cursor.CursorRoundTrip` | besdk/lists.py:155-167 | a cursor opens to exactly what it was made of, under its own filter and plan digests, with the source's error otherwise |
| `Cursor.OpensExactly` | besdk/lists.py:155-167 | exactly which cursor texts are accepted, and what they then stand for |
| `Cursor.TokenNotEmpty` | besdk/lists.py:122-125 | a cursor is never the empty text that means the first page |
| `Paging.ResumedSelects` | besdk/lists.py:227-228 | a page's statement selects the list's rows strictly after the cursor's row, also when that row is gone |
| `Paging.ResumedListing` | besdk/lists.py:238-251 | from the cursor of its k-th row a list goes on with the next one |
| `Paging.WalkReads` | besdk/lists.py:238-251 | n pages hold exactly the first n times limit rows and the cursor after them |
| `Paging.PagesAreTheListing` | besdk/lists.py:238-251 | following the cursors ends after as many pages as the rows fill, with every row once and in order |
| `Paging.ForeignCursor` | besdk/lists.py:164-167 | a cursor of another filter or of an older authorization is refused with its own error |
| `Lists.Build` | besdk/lists.py:181-232 | the loops over narrowing, filters and sorts build the query of the specification, or the first refusal |
| `Lists.NarrowAll` | besdk/lists.py:192-200 | each named field once, refused when secret or unknown, adds its readable condition |
| `Lists.FilterAll` | besdk/lists.py:207-213 | the first filter that is not filterable, not queryable or malformed is refused, and the others append condition and argument |
| `Lists.SortAll` | besdk/lists.py:219-224 | the first sort that is not sortable or not queryable is refused, and the others give the keys in order |
| `ListMeaning.PlanWithin` | besdk/authz/plan.py:57-59 | no placeholder of a plan is past its arguments |
| `ListMeaning.NarrowMeans` | besdk/lists.py:192-200 | narrowing adds exactly the condition that each named field is readable in the row |
| `ListMeaning.FiltersMean` | besdk/lists.py:207-213 | filters add exactly their own conditions, each value at its own placeholder |
| `ListMeaning.ListsExactly` | besdk/lists.py:181-232 | a list selects exactly the rows the evaluation allows that show every narrowed field and pass every filter |
| `ListMeaning.NothingHiddenIsQueried` | besdk/lists.py:202-224 | a restricted field filtered or sorted by is readable in every row the list shows |
| `ListMeaning.SecretRefused` | besdk/lists.py:192-224 | a secret field never filters, sorts or narrows a list |
| `ListMeaning.PagesListExactly` | besdk/lists.py:181-251 | end to end: the pages of a request together are the rows its subject may see and asked for, each once, in order |
| `ListRequests.PagesAnswer` | besdk/lists.py:181-251 | end to end on the request's own fields: exactly the rows asked for, each once, in the asked direction at the first field that differs, the lower ID first at the end |
| `ListRequests.FirstDifference` | besdk/lists.py:229-230 | the order of the list's keys is the request's: lower first when ascending, higher first when descending, at the first field that differs |
| `ListRequests.PassesExactly` | besdk/lists.py:146-153 | eq, gt, gte, lt, lte and in compare as they are named |
| `ListRequests.AcceptedExactly` | besdk/lists.py:181-224 | exactly which requests are accepted: page size, narrowed fields, filters, sorts and search |
| `ListRequests.CursorsBelong` | besdk/lists.py:155-228 | a cursor goes on only with the same filters, keyword, sorts and narrowed fields, and asks again under a changed authorization |
| `Json.ValueRoundTrip` | besdk/canon.py:73-103 | a general JSON reader reads a printed value back and leaves the rest of the text |
| `Utf8.DecodeEncode` | besdk/canon.py:106-109 | UTF-8 decodes to the encoded text |
| `Canon.ReadEncode` | besdk/canon.py:73-109 | a JSON reader applied to the canonical bytes gives the value back, members in UTF-16 key order |
| `Canon.EncodeInjective` | besdk/canon.py:106-109 | two values have the same canonical bytes if and only if they are the same value |
| `Canon.ParseExact` | besdk/canon.py:143-154 | parse returns v if and only if v is in form C throughout with its keys in order and the bytes are its encoding |
| `Canon.ParseInjective` | besdk/canon.py:143-154 | parse accepts one byte string per value |
| `CanonForm.EscapesExactly` | besdk/canon.py:61-70 | which characters are escaped and how, as section 3.2.2.2 of RFC 8785 lists them |
| `CanonForm.KeysExactly` | besdk/canon.py:93-96 | keys are ordered by UTF-16 code units at the first character that differs, a prefix first |
| `CanonForm.EncodedExactly` | besdk/canon.py:73-103 | exactly which values are refused: null, floating point, integers from 2^53 on |
| `CanonForm.ShortestText` | besdk/canon.py:73-109 | no JSON text of the same members in the same order is shorter than the canonical one |
| `Decimals.NormalKeepsValue` | besdk/canon.py:21-39 | the normal text reads back as the decimal's value if and only if it has at most 100 significant digits |
| `Decimals.NormalUnique` | besdk/canon.py:21-39 | within that precision equal decimals have one text, different ones different texts, and acceptance depends on the value alone |
| `DecimalForm.AcceptedExactly` | besdk/canon.py:30-35 | accepted exactly with at most 38 digits and 18 fraction digits, not counting zeros at the end |
| `DecimalForm.NormalForm` | besdk/canon.py:36-39 | no exponent, no plus sign, no superfluous zeros, and a minus sign only for negative values |
| `CanonWriter.Writer.PutString` | besdk/canon.py:61-70 | the writer appends exactly the quoted text with its escapes |
| `CanonWriter.Writer.PutValue` | besdk/canon.py:73-103 | the writer that appends as it recurses produces the canonical text, or refuses exactly what is not encodable |
| `CanonWriter.EncodeBytes` | besdk/canon.py:106-109 | encode by appending equals the encoding of the specification |
| `Queue.InvKept` | besdk/events/pgqueue.py:125-396 | every step of publishers, readers, workers and upkeep keeps the queue's invariant |
| `Queue.LeasesClaimed` | besdk/events/pgqueue.py:264-293 | a claim keeps attempts equal to claims and within the limit, and its token the only current one |
| `QueueSafety.NothingSkipped` | besdk/events/pgqueue.py:239-256 | whatever is visible at any later time at or below the position now was considered by now, and queued once if it matches |
| `QueueSafety.DeliveryBound` | besdk/events/pgqueue.py:258-332 | no message is claimed more often than max_deliver |
| `QueueSafety.OneToken` | besdk/events/pgqueue.py:276-285 | a delivery has at most one current token, that of its last claim |
| `QueueSafety.StaleForever` | besdk/events/pgqueue.py:321-330 | nothing done under a replaced token changes anything, at any later time |
| `QueueSafety.ReplacedForever` | besdk/events/pgqueue.py:264-330 | after a claim nothing done under an earlier token of its delivery changes anything, at any later time |
| `QueueSafety.OneMessage` | besdk/events/pgqueue.py:125-134 | an event published again while its message is there adds none |
| `QueueSafety.OneInFlight` | besdk/events/pgqueue.py:295-319 | an ordered durable has at most one delivery in flight when numbers go with transactions |
| `QueueSafety.ClaimedInOrder` | besdk/events/pgqueue.py:295-319 | an ordered claim comes only after every earlier matching message has left the queue |
| `QueueSafety.DisagreementBreaksOrder` | besdk/events/pgqueue.py:303-309 | when two numbers go against their transactions a run has two deliveries in flight |
| `QueueTime.LeaseHolds` | besdk/events/pgqueue.py:264-319 | from a claim or renewal until its lease runs out nobody else claims, changes or gives up the delivery, over any run |
| `QueueTime.DelayHolds` | besdk/events/pgqueue.py:321-330 | a delivery queued or put back is not claimed before its time, over any run |
| `QueueTime.GivenUpAtLast` | besdk/events/pgqueue.py:258-262 | a delivery is given up only after all its attempts and with its last lease run out |
| `QueueTime.AdvanceExactly` | besdk/events/pgqueue.py:239-256 | an advance reads exactly the first messages past the position and below xmin, in the order of their transactions |
| `QueueTables.Lowest` | besdk/events/pgqueue.py:276-280 | the lowest number of a set, none when it is empty |
| `QueueTables.Tables.QueueRead` | besdk/events/pgqueue.py:250-256 | the batch read is queued and the position moved as the step says |
| `QueueTables.Tables.ClaimAny` | besdk/events/pgqueue.py:264-293 | the lowest unlocked row that waits past its time or whose lease ran out with attempts left is leased, and none exactly when there is none |
| `QueueTables.Tables.ClaimFirst` | besdk/events/pgqueue.py:295-319 | the earliest row is leased exactly when it waits past its time or its lease ran out with attempts left |
| `QueueTables.Tables.SettleOutcome` | besdk/events/pgqueue.py:321-330 | an outcome ends the delivery, or sets its next attempt, or changes nothing under a replaced token |
| `QueueTables.Tables.DeleteExhausted` | besdk/events/pgqueue.py:258-262 | exactly the exhausted deliveries with a lapsed lease are given up |
| `QueueTables.Tables.DeleteAged` | besdk/events/pgqueue.py:391-396 | aged messages go with their deliveries |
| `Outbox.NumberKeeps` | besdk/events/outbox.py:114-143 | numbering keeps rows, counter, forks and positions in step |
| `OutboxRuns.InvKept` | besdk/events/outbox.py:114-332 | every step of writers, forwarders, failovers, backups and restores keeps the partition's invariant |
| `OutboxRuns.PositionsExact` | besdk/events/outbox.py:114-143 | the positions ever given in an epoch are exactly 1..n, each once |
| `OutboxRuns.NumberedOnce` | besdk/events/outbox.py:125-131 | a row has one position, and a fork is the number of positions of the epoch it closes |
| `OutboxRuns.PositionStays` | besdk/events/outbox.py:133-139 | a position once given never changes, and only published rows are removed |
| `OutboxRuns.BatchInOrder` | besdk/events/outbox.py:132-142 | one numbering gives the first rows consecutive positions in insertion order |
| `OutboxRuns.PublicationOrder` | besdk/events/outbox.py:262-300 | first publications are in the order of positions for any number of forwarders, and rows are marked only after the acknowledgement |
| `OutboxRuns.NothingMissing` | besdk/events/outbox.py:314-325 | when a position is in the transport, so is every lower one of the same past |
| `OutboxRuns.ReadsExactly` | besdk/events/outbox.py:314-325 | a forwarder reads exactly the first numbered rows not yet published, by position |
| `OutboxRuns.NumbersExactly` | besdk/events/outbox.py:132-142 | numbering takes exactly the first rows without a position, in insertion order |
| `OutboxTables.Partition.NumberIn` | besdk/events/outbox.py:114-143 | number_in picks the first unnumbered rows and leaves the tables as the specification says |
| `OutboxTables.Partition.MarkPublished` | besdk/events/outbox.py:296-299 | exactly the rows done are marked published |
| `Pipeline.HandledKept` | besdk/events/consumer.py:121-139 | a handler's transaction, seen or unseen, keeps one effect per inbox row |
| `Pipeline.NewEnd` | besdk/events/pgqueue.py:321-330 | a delivery leaves the queue only for an outcome its worker reported or for one of the queue's own reasons |
| `PipelineRuns.EffectOnce` | besdk/events/consumer.py:130-137 | a handler's writes commit at most once for an event, over every run |
| `PipelineRuns.PassedAccounted` | besdk/events/consumer.py:99-145 | a message passed by the position is still queued, applied, recorded as a dead letter, or one of three named exceptions |
| `PipelineRuns.AccountedExactly` | besdk/events/consumer.py:107-119 | that holds in all runs if and only if the consumer's own limit is not above the stored one |
| `ConsumerTables.Tables.Handle` | besdk/events/consumer.py:99-119 | ACK only with the effect there, TERM only with a dead letter there, NAK otherwise |
| `EventFlow.EndToEnd` | besdk/events/outbox.py:262-300 | from the committed row to the handler: a published row's message is in the queue, takes effect at most once and is accounted for |
| `View.Holder.Accept` | besdk/authz/view.py:235-276 | the acceptance table, shard by shard, leaves the state of the specification |
| `View.Holder.CheckStall` | besdk/authz/view.py:206-218 | a wait of more than 4.5 seconds or a clock jump of more than 2 invalidates every shard, and nothing else does |
| `View.Holder.Lookup` | besdk/authz/view.py:303-317 | a grant holds exactly the segments that some serving, current shard lists for the subject, none when its accounts are disabled; refused exactly when there is no such shard |
| `View.Holder.LookupFor` | besdk/authz/view.py:278-301 | a stale grant only for a tightening operation that no current shard serves, with the same segments of a last view |
| `ViewAnswers.RefusedExactly` | besdk/authz/view.py:235-248 | which answers are refused, and what a refused and an accepted one do to the holder |
| `ViewAnswers.AnsweredExactly` | besdk/authz/view.py:249-276 | what an accepted answer makes of a shard it names: renewed, replaced by the segments that fit, stopped or marked |
| `ViewAnswers.UnnamedExactly` | besdk/authz/view.py:249-254 | other shards stay, or are void under a higher generation |
| `ViewAnswers.RenewalServes` | besdk/authz/view.py:257-260 | a full renewal keeps the shard good for its validity from the sending of the request |
| `ViewRuns.BoundedStaleness` | besdk/authz/view.py:220-317 | a grant rests on content confirmed to a request sent less than the validity ago, for high risk also on a full renewal |
| `ViewRuns.NeverBack` | besdk/authz/view.py:235-252 | the recovery generation never decreases and the instance never changes |
| `ViewRuns.RefusedOnlySuspends` | besdk/authz/view.py:240-248 | a refused answer changes only suspensions, and a suspended shard grants nothing |
| `ViewRuns.AdoptedExactly` | besdk/authz/view.py:253-273 | under one generation a held shard is replaced if and only if no revision is older than the one held now, whatever was held before it |
| `ViewRuns.SlipsExactly` | besdk/authz/view.py:103-113 | a lower revision passes the comparison if and only if it writes the same epoch in another text |
| `ViewRuns.StoppedStays` | besdk/authz/view.py:253-268 | under one generation without a stall a held shard stays, and a stopped one grants nothing |
| `ViewRuns.NoWayBack` | besdk/authz/view.py:100-113 | under one generation without a stall a domain that the shard's views keep, in plain texts, never goes back |
| `ViewRuns.StallForgets` | besdk/authz/view.py:213-217 | after a stall any view of the same generation is adopted |
| `ViewRuns.DomainForgotten` | besdk/authz/view.py:103-113 | three accepted answers of one generation, the second without the domain, leave the shard with an older revision than its first |
| `Cutoff.Request.Enter` | besdk/reqctx.py:68-76 | a scope's cutoff is the earliest of its own and the enclosing one |
| `Cutoff.Request.Tighten` | besdk/reqctx.py:79-83 | a decision moves the innermost cutoff earlier and no other |
| `Cutoff.Request.Admit` | besdk/guard.py:42-48 | the admission binds exactly the earlier of the token's expiry and the grant's cutoff |
| `Cutoff.Request.Check` | besdk/db/pool.py:279-286 | the check passes exactly when now lies strictly before every cutoff used |
| `Cutoff.Request.RunTx` | besdk/db/pool.py:234-286 | at most three runs; a finished one commits exactly when it passes every cutoff used, those of rolled back runs too |
| `Cutoff.CutoffKeepsFresh` | besdk/authz/view.py:303-317 | wherever the cutoff of a grant lies ahead its content was confirmed to a request sent less than the validity before |
| `Cutoff.Request.Serve` | besdk/guard.py:42-60 | a request under the guard commits exactly when it finishes before the token expiry and before every grant used runs out, all of them fresh then |
| `Budget.Paid` | besdk/calls/policy.py:49-69 | tokens left and retries granted never exceed what was put in |
| `Budget.RetriesBounded` | besdk/calls/policy.py:49-69 | over any run a thousand times the retries is at most 4900 plus a hundred times the successes |
| `Budget.Store.Record` | besdk/calls/policy.py:57-62 | a success adds a tenth of a retry up to ten, a failure takes one down to none, and the counter follows the run |
| `Breaker.NextPeriod` | besdk/calls/policy.py:111 | doubling up to the maximum steps through the open periods min(5 * 2^(k-1), 30) seconds |
| `Breaker.OpensExactly` | besdk/calls/policy.py:103-119 | over any run a closed breaker opens exactly when the last 20 outcomes counted first have more than half failures |
| `Breaker.AdmitsExactly` | besdk/calls/policy.py:89-101 | who is admitted: all when closed, after 5, 10, 20 or 30 seconds when open, one trial at a time when half-open |
| `Breaker.AdmitsAfterPause` | besdk/calls/policy.py:89-101 | the first call after the pause is admitted as a trial, over any run |
| `Breaker.FailedTrialPauses` | besdk/calls/policy.py:103-119 | a failed trial opens the breaker for the next longer pause, and nothing is admitted in it |
| `Breaker.NoPermitWhileOpen` | besdk/calls/policy.py:93-96 | no permit inside an open period, whatever late results come |
| `Breaker.TrialHolds` | besdk/calls/policy.py:97-107 | one trial at a time, and only its result leaves half-open |
| `Breaker.ThreeTrialsToClose` | besdk/calls/policy.py:112-115 | it closes exactly when three trials have succeeded with no failed one between |
| `Breaker.Store.Start` | besdk/calls/policy.py:89-101 | start grants exactly what the history specification grants |
| `Breaker.Store.End` | besdk/calls/policy.py:103-119 | end with a bounded window moves exactly as the history specification does |
| `Calls.OneLayerRetries` | besdk/calls/outcome.py:57-93 | the error answered upward for any attempt is one that the next caller, over either wire, does not retry |
| `Calls.CountedExactly` | besdk/calls/outcome.py:31-70 | which attempts the budget and the breaker count and which are worth another, on the attempt's own fields |
| `Calls.AnswersExactly` | besdk/calls/outcome.py:73-93 | the answer for a final attempt, on its own fields: unavailable, result unknown, or what the dependency answered |
| `Calls.LocalSettled` | besdk/calls/client.py:69-99 | nor are the errors a dependency raises without an attempt |
| `Calls.PassedOnExactly` | besdk/calls/outcome.py:57-93 | an error passed upward is retried by the next caller if and only if its HTTP rendering says unavailable and its code does not |
| `Calls.ReadingCoherent` | besdk/errwire.py:50-112 | which errors read from the wire do not come with their catalogue code: platform reasons over gRPC under another code |
| `Calls.ForwardedRefusalIsRetried` | besdk/calls/client.py:174-179 | of the errors a dependency raises the user client makes exactly the refused credentials of forwarded calls retryable |
| `Dependency.AttemptTimeout` | besdk/calls/policy.py:21-25 | an attempt's timeout is the smaller of three seconds and the remaining deadline less the reserve, and missing exactly when less than the reserve is left |
| `Dependency.Store.Do` | besdk/calls/client.py:66-120 | at most three attempts, each charged by its own result; fine exactly after a success; another attempt that is due is held back only by time or the breaker |
| `Dependency.Store.Turn` | besdk/calls/client.py:83-120 | another attempt exactly for an idempotent call whose dependency could not be reached, with attempts, tokens and time left |
| `Dependency.DoAll` | besdk/calls/client.py:66-120 | no retry storm, counted by what was sent: a thousand times the repeated attempts is at most 4900 plus a hundred times the attempts without an error |
| `Dependency.Call` | besdk/calls/client.py:81-120 | in a chain of any depth the leaf gets at most three attempts |
| `Audit.Table.Purge` | besdk/audit.py:259-284 | the statements, ancestors in any order, come to every row's own decision and count it |
| `Audit.Table.Ancestor` | besdk/audit.py:272-276 | one ancestor's statements change exactly its own rows |
| `Audit.DecidesExactly` | besdk/audit.py:259-284 | a row is deleted exactly when old enough and in the backup, and sent again exactly when not on the current history |
| `AuditNumbers.PositionsExact` | besdk/audit.py:205-226 | in every reachable state the positions of an epoch are exactly 1..n, one a record, and shown by its row |
| `AuditNumbers.PositionStays` | besdk/audit.py:205-226 | positions given stay given, and a row keeps its position until it is purged |
| `AuditNumbers.BatchInOrder` | besdk/audit.py:216-221 | a batch is the first unnumbered rows and gets the next positions in insertion order |
| `AuditRuns.NoRecordLost` | besdk/audit.py:205-284 | a committed record is local or in whatever the audit component can be restored to, over every run |
| `AuditRuns.DeletedIsSafe` | besdk/audit.py:264-274 | a row is deleted only when no restore still to come can lose its record |
| `AuditRuns.AnswerCovers` | besdk/audit.py:114-121 | what a watermark covers is in the backup it was answered from |
| `Migrate.Store.ApplyLocked` | besdk/db/migrate.py:128-152 | the loop over the files leaves table and schema as the specification says, wherever it stops |
| `Migrate.ExactlyOnceInOrder` | besdk/db/migrate.py:128-152 | files take effect once and in version order, and a clean version v means exactly the files up to v |
| `Migrate.DirtyStays` | besdk/db/migrate.py:133-136 | a dirty state is never built upon |
| `Migrate.TakenBackIsClean` | besdk/db/migrate.py:137-159 | a failed file that was taken back leaves the state clean at the last one that took effect |
| `Migrate.RunCompletes` | besdk/db/migrate.py:137-152 | a run to its end applies what was missing, and an older file set changes nothing |
| `Migrate.RunExactly` | besdk/db/migrate.py:137-151 | a finished run of any ordered set applies exactly its files above the current version |
| `Migrate.LateFileSkipped` | besdk/db/migrate.py:138-139 | over any runs and repairs a file not above the last one applied is never applied later |

## Left out

* Documents, transports and keys: HTTP and gRPC servers, TLS, JWT, object storage, JetStream, NOTIFY wake-ups,
  metrics, logs.
* SQL as text: quoting of identifiers, the planner, indexes and statistics. Each statement is its effect on the rows.
* Canonical JSON: lone surrogates (a Dafny character is a Unicode scalar value), None inside values, and Python's
  float parsing beyond refusing it; NFC is any idempotent function on texts.
* `sorted_set`, instant normalization, and the normalized form and digest of a segment: digests are opaque texts.
* The decimal library's reading of a text (spaces, underscores, signs, infinities) and its exponent limits: `Decimals`
  starts from the sign, coefficient and exponent it reads.
* RFC 3339 texts: an instant is a number, and a text that is not one is `None` or `Malformed`.
* Cursors that no list made: a base64url text with stray characters, or sort values that are not strings, is refused
  here, while Python's decoder skips stray characters and passes any value on to the database.
* `Cursor.CursorRoundTrip`: does not model the JSON numbers 1.0 and 1e0 as the version 1, because no list writes them.
* List search columns (the source refuses them too), SQL types and casts beyond the kinds listed, and the parsing of a
  page size given as text.
* `PlanMeaning.PlanSelects`: asks that the atoms of the active segments it reads are faithful to the row's facts,
  which `PlanMeaning.AtomExact` shows to be what an atom needs; the first two findings above say when they are not.
* `Segments.Evaluate`: the readable fields are a set; their sorted order is left out.
* `Plan.Fields`: likewise a set, without the order.
* One partition and one durable at a time; the property of each does not depend on the others. A forwarder's lease and
  its list of written partitions are left out: any forwarder may act at any time, which is more than the lease allows.
* `OutboxRuns.PublicationOrder`: a restore stops the old forwarders, takes a backup of the same past, and starts a
  database epoch above all earlier ones; without that two pasts would publish side by side.
* A queue's messages without an ID, and settings that differ between the instances of one durable.
* `QueueSafety.NothingSkipped`: a message the retention took before it was read is not delivered, as the source
  intends.
* The length of a backoff, drawn at random, and of a lease: the steps bring them.
* Fairness and time to delivery: claims, retries and polls may happen at any time or never.
* Several valid shards for one resource: the source takes the first of its dictionary, the model any valid one.
* `View.Holder.LookupFor`: the wall-clock `since` of a stale grant, which marks its audit, is not modelled.
* `ViewRuns.NoWayBack`: asks that the shard's views keep the domain, with a readable value and the epoch in one
  spelling; `ViewRuns.DomainForgotten` and `ViewRuns.SlipsExactly` show why.
* The guard's own checks of a credential: its signature, and that it is not older than the security version of the grant.
* A database commit itself: the check is modelled, the database's own limit on the time from check to commit is not.
* `Calls.OneLayerRetries`: asks that a platform reason comes with its catalogue code, and that another error's HTTP
  status says unavailable only when its code does; `Calls.PassedOnExactly` and `Calls.ReadingCoherent` say exactly
  when that fails.
* `Budget.RetriesBounded`: counts a retry right after its own failure is recorded, as one event loop does it.
* Denial budgets and summaries, the audit capacity check, and the loop that drains a backlog.
* `AuditRuns.NoRecordLost`: restores of the component's own database, which lose local records, are not modelled;
  restores of the audit component never go below a watermark it has answered.
* `AuditNumbers.PositionsExact`: the component's database changes its epoch without loss; `OutboxRuns.PositionsExact`
  has the same algorithm under restores too.
* Lint of migration files, the lock itself and its retries: runs are one after the other, as the advisory lock makes
  them.
* Standby databases, where numbering is refused because the epoch cannot be read.
