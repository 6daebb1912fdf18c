# A verified model of the app-module SDK's protocols and codecs

This project models the parts of the SDK where several pieces of code have to
agree over time or over text, and proves what they promise. `dafny verify
dfyconfig.toml` checks all of it. Each file holds one module.

- **Audit outbox** (`AuditOutbox`, `AuditDelivery`, `AuditProtocol`,
  `AuditGuarantees`, `AuditTiming`, `AuditStore`, `AuditDrain`, `AuditText`). Rows are claimed
  under a rotating token with an expiry, delivered with no database scope held,
  and acknowledged, retried or quarantined only under the token of the latest
  claim. The statements are methods on a table object; `AuditProtocol` is a step
  system in which any number of workers, module transactions, provisioning runs,
  clock advances, lost replies and crashes interleave statement by statement, and
  `AuditGuarantees` states what holds of every run of it. `AuditDrain` is the
  bounded loop of one worker, with the others moving between its statements, and
  `AuditText` says what counts as white space in UTF-8 (`Utf8Text`).
- **Meter metadata** (`DecimalText`, `TextOrder`, `MeterNumber`, `MeterValue`,
  `MeterMetadata`, `MeterTokens`, `MeterFingerprint`, `MeterReading`, `MeterBounds`). Exact decimal
  normalization in int64 arithmetic, the recursive canonical printer with its
  shared member counter, and the token walk in front of it. The canonical text is
  shown to be a fingerprint, equal exactly for equal values, and to be JSON that a
  reader written from RFC 8259 reads back as the same value.
- **SQL guard** (`SqlScanner`, `SqlLexer`, `SqlPlaceholder`,
  `SqlSubstitution`, `SqlGuard`, `SqlPieces`, `SqlVerdicts`, `SqlOrder`, `SqlTags`,
  `SqlShapes`). The
  index scanner equals a declarative lexer; the guard's verdict is characterised exactly;
  stripping is shown to commute with the substitution of the module placeholder; and
  the verdicts before and after substitution are both read off the pieces of the
  stripped statement, which tells exactly when they differ.
- **Local tasks** (`LocalTasks`, `LocalTaskRuns`, `LocalTaskGuarantees`, `LocalTaskCancels`). The job
  registry as an object with its jobs updated in place, and every interleaving of
  its lock sections with handler calls and cancel calls.
- **Dev directory** (`DevDirectory`, `DevDirectoryRuns`, `DevDirectoryRows`). Leased rows, lookups and
  a consumer's memo, with a real-time bound on how old a hit can be.
- **Dynamic SELECT** (`DynamicSelect`, `SelectRules`, `SelectMeaning`, `SelectExecution`,
  `DependencyQuery`, `DependencyRules`). The statement printer, a reader for its text, what executing
  text and arguments selects, and the builder that latches its first error.
- **Actor delegation** (`ModuleIds`, `Delegation`, `GuardVerdicts`). The three exported
  guards over every configuration and every nesting, with module code in between;
  and, guard by guard, who passes, what anyone else is told, and what is handed on.
- **Paging, cursors and delivery** (`Paging`, `Base64Url`, `Base64Groups`,
  `Cursors`, `Delivery`, `DeliveryKeys`).
- `Wrappers` and `Sequences` hold what the others share.

## Where the code and its documentation differ

The model follows the code.

- `internal/core/db_guard.go:79-80` says every removed region becomes a space; a
  line comment (lines 90-93) becomes nothing.
- The schema pattern takes the separator after a schema name with it, so a schema
  name exactly one separator later is not looked at: `mod_<own>,mod_<foreign>`
  passes (`SqlGuard.OwnSchemaHidesForeign`; `SqlGuard.SchemasMissedExactly` says
  exactly when this happens).
- `internal/core/db_placeholder.go:84-94` argues that scanning before substitution
  gives neither a false accept nor a false reject. What is accepted stays accepted
  when the module's own ID does not already stand in the statement
  (`SqlOrder.AcceptedStaysAccepted`) or every name in it is own
  (`SqlOrder.AllOwnStaysAccepted`); in general exactly when substitution uncovers no
  foreign name (`SqlOrder.AcceptedStaysExactly`), which a literal own name can make
  it do (`SqlOrder.LiteralOwnIdMatters`, `SqlOrder.LiteralOwnTableMatters`), and so can
  a literal own ID in a dollar tag (`SqlTags.TagsMatter`). What is
  rejected can become acceptable: a foreign table name with a placeholder right before
  or right after it, or one after it in a word that a name made from a placeholder
  leads, and a foreign schema name hidden by one made from a placeholder
  (`SqlOrder.RejectedMayBecomeAccepted`, `SqlOrder.PlaceholderEndsName`,
  `SqlOrder.MadeNameHidesForeign`); `SqlOrder.VerdictKeptExactly` says exactly when
  the verdict is the same.
- `internal/core/dev_directory.go:102-106` gives TTL + cacheTTL as the worst
  staleness of a hit. The time between a lookup's query and its store comes on top
  (`DevDirectoryRuns.BoundExactly`), so the documented bound holds exactly when
  lookups take no time (`DevDirectoryRuns.DocumentedBoundExactly`).
- The five-minute cap on retry delays (`internal/core/audit_delivery.go:23`) is
  never reached: the largest delay is 256 seconds.
- `httpx/strict_page.go:78-80` says filter tuples cannot collide. For one resource
  they cannot; two resources collide exactly when one continues the other with an
  open list of length-prefixed values (`Cursors.CollideExactly`).
- A negative ID cursor prints as a cursor that parses as the first page.

## Assumptions

Time is an integer in the audit outbox and a real number of seconds in the dev
directory. Fresh tokens and event ids come from a counter that never
repeats. A SQL statement, a publish batch, a lock section and a handler's return
are one step each. Replies of the ingress, the database and the mint endpoint are
parameters, and so are JSON encoding sizes, whether stored proof bytes parse, and
the verdict of the float parser on a number. An invocation's digest of the body is
modelled as the body it was made for, and the compatibility headers beside the
identity and the delegation as one flag that says whether they agree. Text in metadata is a sequence of
characters whose UTF-8 octets are counted (`MeterMetadata.Octets`). SQL text is a
sequence of characters too: the identifier patterns read characters, and the byte
scanner sees the same regions because all its delimiters are ASCII. All other text
is a sequence of bytes, as Go strings are, written as characters.

## Model

| member | source | states |
|---|---|---|
| `AuditOutbox.BoundedErrorCode` | internal/auditoutbox/outbox.go:149-158 | a stored error code is the trimmed code, its first 96 octets, or delivery_failed for an empty one |
| `AuditOutbox.NewRow` | audit/audit.go:109-155 | an entry is recorded exactly when its trimmed names fit, its details are absent, null or an object of at most 8192 octets, and there is a proof that parses; which error it gets otherwise; and every column of the row |
| `AuditOutbox.TrimSpaceCuts` | audit/audit.go:110-112 | trimming takes off exactly the Unicode white space characters around a text, in UTF-8 |
| `AuditText.SpaceExactly` | audit/audit.go:110-112 | what is trimmed is, octet by octet, the UTF-8 form of a code point with the White_Space property |
| `AuditOutbox.RetryWaits` | internal/auditoutbox/outbox.go:112-123 | a row given back for retry keeps its attempts, stores its code and is claimable exactly from the chosen time on |
| `AuditOutbox.TerminalIsNeverClaimable` | internal/auditoutbox/outbox.go:98-137 | acknowledged and quarantined rows carry their time and code, and are never claimable again |
| `AuditDelivery.CodesTellReplies` | internal/core/audit_delivery.go:133-179 | disposition and code tell how a delivery ended, status included |
| `AuditOutbox.UpgradeMeetsChecks` | audit/audit.go:197-213 | the upgrade UPDATE makes every undelivered row without a proof meet the constraints, quarantined at that time unless it was before, and changes nothing of its evidence |
| `AuditOutbox.UpgradeIsIdempotent` | audit/audit.go:207-213 | provisioning again changes no row of a table that meets its constraints |
| `AuditOutbox.LeaseKeepsTable` | internal/auditoutbox/outbox.go:56-67 | leasing a claimable row keeps every CHECK, the unique event ids and the distinctness of lease tokens |
| `AuditOutbox.FinalizeKeepsTable` | internal/auditoutbox/outbox.go:98-147 | acknowledge, retry and quarantine keep every CHECK, fenced or not |
| `AuditOutbox.InsertKeepsTable` | audit/audit.go:147-151 | an inserted row keeps every CHECK and gets a fresh id and event id |
| `AuditDelivery.Decide` | internal/core/audit_delivery.go:68-72 | from the reply and the attempts: acknowledge exactly on an accepted reply, quarantine exactly for an invalid proof, a status of 400, 409, 413 or 422, or eight attempts without acceptance, and else retry |
| `AuditDelivery.DecideCodes` | internal/core/audit_delivery.go:68-72 | the code of every ending: empty when accepted, the reason for the quarantine or retry otherwise, the status spelled out, and maximum attempts before all of them |
| `AuditDelivery.CodesArePlain` | internal/core/audit_delivery.go:133-179 | every code is at most 96 lower-case letters, digits and underscores |
| `AuditDelivery.PlainCodeStays` | internal/auditoutbox/outbox.go:149-158 | bounding such a code for the row changes nothing |
| `AuditDelivery.BackoffBounded` | internal/core/audit_delivery.go:181-193 | every retry delay lies in 2s to 256s and grows with the attempts; the five-minute cap is never reached |
| `AuditDelivery.BackoffDoubles` | internal/core/audit_delivery.go:181-193 | the delay after n failures is two seconds to the power n, for n from 1 to 8, and that of the nearer end outside |
| `AuditStore.Candidates` | internal/auditoutbox/outbox.go:46-56 | the rows chosen are the first claimable ones in (available_at, id) order, up to the limit |
| `AuditStore.ClaimFrom` | internal/auditoutbox/outbox.go:41-96 | a claim leases exactly the first ready unlocked rows, each once with its own token, and returns them in id order with every column recorded, their attempts and their token |
| `AuditStore.ClaimTakesDue` | internal/auditoutbox/outbox.go:41-60 | a row is claimed only if no one locks it, it is not settled, its time has come and its lease, if any, has expired; and such a row is left out only when the limit is used up on rows due before it |
| `AuditStore.ClaimLeasesRows` | internal/auditoutbox/outbox.go:56-67 | a claim counts an attempt of each row it took, under a token no row had or has besides, until the chosen time, and leaves every other row alone |
| `AuditStore.ClaimReturnsRows` | internal/auditoutbox/outbox.go:61-96 | a claim returns every column of the rows it leased, with the attempts counted and the token |
| `AuditGuarantees.LeaseIsTwoMinutes` | internal/core/audit_delivery.go:94-109 | a claim leases its row for 120 seconds from the time the worker read off its clock |
| `AuditStore.ClaimKeepsTable` | internal/auditoutbox/outbox.go:41-96 | a whole claim keeps every CHECK |
| `AuditStore.Outbox.EnsureTable` | audit/audit.go:172-299 | the upgrade succeeds exactly when every row then meets the CHECKs and event ids are unique, and otherwise changes nothing |
| `AuditStore.Outbox.Record` | audit/audit.go:109-156 | Record adds exactly the row its entry makes, or nothing and an error |
| `AuditStore.Outbox.Claim` | internal/auditoutbox/outbox.go:41-96 | the table after Claim is the table before with exactly the claimed rows leased |
| `AuditStore.Outbox.Acknowledge` | internal/auditoutbox/outbox.go:98-110 | the fenced update, its new state and its result |
| `AuditStore.Outbox.Retry` | internal/auditoutbox/outbox.go:112-123 | the fenced update, its new state and its result |
| `AuditStore.Outbox.Quarantine` | internal/auditoutbox/outbox.go:125-137 | the fenced update, its new state and its result |
| `AuditStore.Outbox.Fenced` | internal/auditoutbox/outbox.go:139-147 | a finalize whose token does not hold the row changes nothing and reports the lost lease |
| `AuditDrain.DrainAudit` | internal/core/audit_delivery.go:50-90 | the drain is a run of the protocol in which this worker takes exactly the steps of its attempts, one attempt a pass and each for the first row ready then, and stops exactly when sixteen are made, time is up, a claim has no scope or nothing is due; the log shows each attempt, and the errors are those of the attempts in order, with a failed claim last |
| `AuditDrain.Deliver` | internal/core/audit_delivery.go:65-84 | after a claim: deliver, then finalize, with others moving in between; the log shows the acceptance and the settlement |
| `AuditDrain.ClaimOne` | internal/core/audit_delivery.go:92-109 | a drain claims the first claimable unlocked row in (available_at, id) order, or nothing exactly when every unlocked row is settled, not due or under an unexpired lease |
| `AuditDrain.CleanDrainAcknowledges` | internal/core/audit_delivery.go:50-90 | a drain that reports no error had every event it claimed accepted and settled as acknowledged under the token of the claim |
| `AuditDrain.ReportsExactly` | internal/core/audit_delivery.go:50-90 | an error is among those of a drain's attempts exactly when an attempt ended in it: fenced off, out of reach, or answered by no acceptance, with its event and code |
| `AuditProtocol.StepKeeps` | internal/auditoutbox/outbox.go:41-147 | every step of any worker, transaction, provisioning or clock keeps the invariant |
| `AuditProtocol.RunKeeps` | internal/auditoutbox/outbox.go:41-147 | the invariant holds after every run of any number of workers |
| `AuditGuarantees.ClaimableExactly` | internal/auditoutbox/outbox.go:46-53 | in every reachable state a worker may claim a row exactly when it is not settled, its time has come, and every claim of it was released or has expired |
| `AuditGuarantees.RecordedIsClaimable` | audit/audit.go:109-156 | a row recorded in any reachable state is there as recorded, beside every other row, and can be claimed from its time on |
| `AuditGuarantees.OwnerIsLatestClaim` | internal/auditoutbox/outbox.go:39-60 | the owner of a row is the token of its latest claim, unless settled since |
| `AuditGuarantees.FinalizeIsFenced` | internal/auditoutbox/outbox.go:98-147 | in every reachable state a finalize changes its row exactly when its token is that of the row's latest claim; any other reports the lost lease and leaves the table unchanged |
| `AuditGuarantees.AtMostOneLiveLease` | internal/auditoutbox/outbox.go:39-67 | no row ever has two unexpired leases |
| `AuditGuarantees.LiveLeaseExcludesClaims` | internal/auditoutbox/outbox.go:49-53 | a row with an unexpired lease cannot be claimed |
| `AuditGuarantees.RowsMeetChecks` | audit/audit.go:230-285 | every row of every reachable state meets the CHECKs, and a row that is not terminal has a proof |
| `AuditGuarantees.OpenOrSettled` | audit/audit.go:230-285 | an open row is complete, within its bounds and leased in full or not at all; a settled one is settled one way and holds no lease |
| `AuditGuarantees.RowsAreForever` | internal/auditoutbox/outbox.go:98-137 | no row is lost, evidence columns never change, attempts never fall, terminal rows never change again |
| `AuditGuarantees.RowKept` | internal/auditoutbox/outbox.go:98-137 | over any run a row keeps what it recorded, its attempts do not fall, and once settled it does not change |
| `AuditGuarantees.HeldIsRecorded` | internal/auditoutbox/outbox.go:61-96 | what a worker holds is at any later time still what its row recorded |
| `AuditGuarantees.DeliveredWasAccepted` | internal/core/audit_delivery.go:133-179 | a delivered row was acknowledged by the worker holding the fence, after the ingress had accepted that very event from it |
| `AuditGuarantees.ReplySettlesRow` | internal/core/audit_delivery.go:65-84 | a reply and the finalize after it, by a worker that holds the row: delivered, quarantined or given back to be due again, as the reply and the attempts say, with the lease gone |
| `AuditGuarantees.ReplyLeavesCode` | internal/core/audit_delivery.go:65-84 | after a reply and its finalize the row holds the code of that ending, to the letter |
| `AuditGuarantees.ClaimsCountUp` | internal/auditoutbox/outbox.go:57-60 | over any run the attempts of a row strictly increase with each claim |
| `AuditGuarantees.AttemptsCountClaims` | internal/auditoutbox/outbox.go:57-60 | in every reachable state the attempts of a row are the number of claims of it in the history |
| `AuditGuarantees.AtMostSevenRetries` | internal/core/audit_delivery.go:68-75 | at most seven retries ever succeed on a row |
| `AuditGuarantees.ExhaustedFinalizeIsTerminal` | internal/core/audit_delivery.go:68-75 | a successful finalize at eight attempts or more is terminal |
| `AuditTiming.RunningWorkerIsNeverFenced` | internal/core/audit_delivery.go:15-24 | on one clock with timed calls returning by their deadlines, a finalize is within 32s of the drain's start, well inside the lease, and is not fenced |
| `MeterNumber.CanonicalJSONNumber` | meter/observation.go:295-344 | the step-by-step normalization in int64 arithmetic computes the specified text; no step overflows |
| `MeterNumber.Arithmetic` | meter/observation.go:319-343 | the guarded exponent arithmetic stays within int64 and accepts exactly when the exact exponents do |
| `MeterNumber.OutputDenotesInput` | meter/observation.go:292-344 | the canonical text is a JSON number of exactly the input's decimal value |
| `MeterValue.DenotedIsProduct` | meter/observation.go:292-344 | the value a number denotes is, in ordinary multiplication, its digits without the point times a power of ten |
| `MeterNumber.CanonicalizeIsIdempotent` | meter/observation.go:292-344 | normalizing a canonical text gives it back |
| `MeterNumber.CanonicalTextIsUnique` | meter/observation.go:292-344 | for accepted numbers, canonical texts are equal exactly when the decimal values are |
| `MeterNumber.AcceptedExactly` | meter/observation.go:306-331 | a number is accepted exactly when its exponent fits an int64, before and after the fraction is moved into it, and the normalized exponent does too or the value is zero |
| `MeterNumber.SplitRendered` | meter/observation.go:296-318 | cutting the text finds the sign, digits and exponent of every JSON number |
| `MeterMetadata.ValidateKey` | meter/observation.go:346-349 | a key is accepted exactly when it has the required shape and length |
| `MeterMetadata.Canonicalizer.Append` | meter/observation.go:214-290 | the printer with its shared member counter succeeds exactly when depth, member, array, key, string and number bounds all hold, and then appends exactly the canonical text and counts exactly the value's members |
| `MeterMetadata.Canonicalizer.AppendObject` | meter/observation.go:219-244 | members are counted, keys checked and sorted, and members printed in that order |
| `MeterMetadata.Canonicalizer.AppendArray` | meter/observation.go:245-258 | items are printed in order within the item bound |
| `MeterMetadata.Canonicalizer.AppendNumber` | meter/observation.go:265-277 | a number is printed as its canonical text |
| `MeterMetadata.SortedKeys` | meter/observation.go:224-231 | the keys come out sorted, each once, or one of them is malformed |
| `MeterMetadata.ObjectInOrder` | meter/observation.go:223-244 | whatever order keys are visited in, an object prints as its sorted members |
| `MeterReading.CanonicalTextReadsBack` | meter/observation.go:214-344 | the canonical text of an accepted value is JSON: a reader for RFC 8259 text reads the same value from it, numbers compared by exact decimal value, and nothing is left over |
| `MeterReading.QuotedIsEmbeddable` | meter/observation.go:236-264 | a printed string holds no control character, no markup character and no line separator of Unicode |
| `MeterBounds.BoundsExactly` | meter/observation.go:214-289 | a value is within the bounds exactly when nothing in it lies too deep and every object, array, string and number in it is sound by itself |
| `MeterBounds.OctetsAreUtf8` | meter/observation.go:259-262 | the size counted for a text is the length of its UTF-8 form |
| `MeterTokens.Walker.Walk` | meter/observation.go:155-208 | the token walk succeeds exactly when no object repeats a name and the total of members is within the bound |
| `MeterTokens.TotalsAgree` | meter/observation.go:171-196 | for input without duplicates the printer's member total is the token walk's |
| `MeterTokens.OrderIsIrrelevant` | meter/observation.go:214-244 | inputs that differ only in member order decode alike, and so print alike |
| `MeterTokens.ValidateAndCopyMetadata` | meter/observation.go:110-150 | metadata is accepted exactly when it is empty, or one JSON object in UTF-8 without duplicate names, within every bound both as sent and as canonical text; it then comes back byte for byte |
| `MeterBounds.AdmissibleExactly` | meter/observation.go:110-150 | metadata is admitted exactly when there is none, or it is one object in UTF-8 that repeats no name, has at most 32 members in all, nests at most four deep, is sound throughout and takes at most 4096 octets, as sent and in canonical form |
| `MeterFingerprint.TextIsFingerprint` | meter/observation.go:214-290 | two accepted values have the same canonical text exactly when they are the same value, numbers compared by exact decimal value |
| `MeterFingerprint.SameNumbers` | meter/observation.go:265-277 | accepted numbers print alike exactly when their values are equal |
| `TextOrder.SortLists` | meter/observation.go:231 | sorting distinct strings gives the sorted list of their set |
| `TextOrder.ListUnique` | meter/observation.go:231 | a set of strings has one sorted list |
| `SqlScanner.StripSQLNoise` | internal/core/db_guard.go:82-111 | the index scanner computes the stripped text of the lexer |
| `SqlScanner.SkipSingleQuoted` | internal/core/db_guard.go:113-130 | the index past a quoted literal, doubled quotes included |
| `SqlScanner.SkipLine` | internal/core/db_guard.go:90-93 | the index of the newline that ends a line comment |
| `SqlScanner.SkipBlockComment` | internal/core/db_guard.go:132-150 | the index past a comment nested to any depth |
| `SqlScanner.SkipDollarQuoted` | internal/core/db_guard.go:152-173 | the index past a dollar-quoted string, or that there is none |
| `SqlShapes.DelimiterExactly` | internal/core/db_guard.go:156-181 | a dollar-quoted string opens exactly with a tag of letters, digits and underscores, or none, between two dollar signs |
| `SqlScanner.StripShrinks` | internal/core/db_guard.go:76-111 | stripping never grows a statement |
| `SqlLexer.PlacedIsFirst` | internal/core/db_guard.go:82-181 | a region that meets the declarative definition in its place is the one the scanner takes |
| `SqlLexer.FirstIsPlaced` | internal/core/db_guard.go:82-181 | the region the scanner takes meets the declarative definition: closed quotes, balanced nesting, first closing delimiter |
| `SqlLexer.LexIsUnique` | internal/core/db_guard.go:82-181 | a list of regions is the scanner's exactly when it concatenates to the statement and every region is well placed |
| `SqlLexer.StripRendersRegions` | internal/core/db_guard.go:76-111 | the stripped text is the plain text with one space per removed region, and nothing for a line comment |
| `SqlSubstitution.StripCommutes` | internal/core/db_placeholder.go:69-97 | stripping commutes with placeholder substitution for every statement whose dollar tags cannot be mistaken for one another afterwards |
| `SqlSubstitution.AbsentIsApart` | internal/core/db_placeholder.go:69-97 | so it does for every statement in which the module's own ID does not already stand |
| `SqlSubstitution.NoDollarIsApart` | internal/core/db_placeholder.go:69-97 | and for every statement without a dollar sign |
| `SqlSubstitution.IndexResolves` | internal/core/db_placeholder.go:69-74 | substitution moves the first closing dollar delimiter to where substitution moves its position |
| `SqlSubstitution.RegionIsKept` | internal/core/db_placeholder.go:69-74 | every quoted, commented or dollar-quoted region keeps its kind and extent under substitution |
| `SqlSubstitution.WordsSurvive` | internal/core/db_guard.go:76-111 | word text at the front of a stripped statement stood at the front of the statement |
| `SqlGuard.CheckCrossModuleSQL` | internal/core/db_guard.go:53-74 | the guard accepts exactly when every match of both patterns names the module's own ID, and otherwise names the module of the first foreign match, tables before schemas |
| `SqlGuard.NamedIsForeign` | internal/core/db_guard.go:59-80 | the error names one module only, another's, whose ID stands in the first match looked at that is not own |
| `SqlGuard.FindAllIsTaken` | internal/core/db_guard.go:62 | the matches found are exactly the leftmost non-overlapping occurrences |
| `SqlGuard.TableAtExactly` | internal/core/db_guard.go:42-42 | a table name stands exactly where a word starts with m, 32 hexadecimal digits and an underscore, in any letter case |
| `SqlGuard.SchemaAtExactly` | internal/core/db_guard.go:47-47 | a schema name stands exactly where mod, an underscore and a module ID stand between separators, in any letter case |
| `SqlGuard.CaseIsIgnored` | internal/core/db_guard.go:42-47 | names stand in a text exactly where they stand in its lower-case form |
| `SqlGuard.VerdictIgnoresCase` | internal/core/db_guard.go:59-80 | so the check gives a text and its lower-case form the same verdict |
| `SqlGuard.ForeignIsRejected` | internal/core/db_guard.go:59-80 | a text that holds another module's table or schema name where it is looked at, in any letter case, is rejected |
| `SqlGuard.AcceptsExactly` | internal/core/db_guard.go:36-74 | a statement is accepted exactly when every table name leading its word, and every schema name not hidden by the one before, is the module's own |
| `SqlGuard.TablesLookedAt` | internal/core/db_guard.go:36-42 | exactly the table names that lead their word are looked at |
| `SqlGuard.SchemasLookedAt` | internal/core/db_guard.go:44-47 | a schema name is looked at exactly when no looked-at schema name ends one separator before it |
| `SqlGuard.SchemasMissedExactly` | internal/core/db_guard.go:44-47 | the schema check misses a foreign name exactly when everything looked at is own and a hidden name is not |
| `SqlGuard.SchemasCheckedUnlessHidden` | internal/core/db_guard.go:44-47 | where no schema name is hidden, the check rejects exactly the texts that hold a foreign one |
| `SqlGuard.OwnSchemaHidesForeign` | internal/core/db_guard.go:44-47 | a foreign schema name one separator after the module's own is accepted |
| `SqlPieces.PiecesRender` | internal/core/db_placeholder.go:69-74 | the pieces of a text spell the text with the token for a placeholder, and the substituted text with the ID |
| `SqlPieces.NamePiece` | internal/core/db_placeholder.go:84-90 | before and after substitution names start only at pieces, never inside a placeholder, and exactly where the pieces say |
| `SqlVerdicts.VerdictBefore` | internal/core/db_guard.go:53-74 | the guard's verdict on the statement as it sees it, read off the pieces of the stripped statement |
| `SqlVerdicts.VerdictAfter` | internal/core/db_placeholder.go:76-97 | the verdict the guard would give on the statement that is executed, read off the same pieces |
| `SqlVerdicts.NamesStay` | internal/core/db_placeholder.go:84-94 | a table name stays one exactly when no placeholder touches it, a schema name always does, and every other name is made from a placeholder |
| `SqlVerdicts.SeenIsEven` | internal/core/db_guard.go:44-47 | a schema name is looked at exactly when an even number of names stands in the unbroken row before it |
| `SqlOrder.ResolveStatement` | internal/core/db_placeholder.go:69-74 | substitution, and its shortcut for statements without a placeholder |
| `SqlOrder.Origin` | internal/core/db_placeholder.go:84-94 | every occurrence in substituted text is the module's own, or stood there before with the same ID |
| `SqlOrder.AllOwnStaysAccepted` | internal/core/db_placeholder.go:76-97 | a statement all of whose names, hidden or not, are the module's own is accepted before and after substitution |
| `SqlOrder.AcceptedStaysAccepted` | internal/core/db_placeholder.go:76-97 | for a minted ID that stands nowhere in the statement in any letter case: accepted before substitution implies accepted after |
| `SqlOrder.VerdictKeptExactly` | internal/core/db_placeholder.go:84-94 | for such a statement the verdict is the same after substitution exactly when the statement names no module or one of its names survives: a table name untouched by placeholders in a word led by none made from one, or a schema name with an even row before it |
| `SqlOrder.SurvivesExactly` | internal/core/db_placeholder.go:84-94 | the substituted statement is rejected exactly when a name survives |
| `SqlOrder.AcceptedStaysExactly` | internal/core/db_placeholder.go:84-94 | an accepted statement, with literal own names or without, stays accepted exactly when substitution neither takes the leader from a foreign table name nor changes the parity of the row before a foreign schema name |
| `SqlOrder.LostLeaderWasOwn` | internal/core/db_placeholder.go:84-94 | the leader lost is a literal own name that a placeholder touches |
| `SqlOrder.LiteralOwnIdMatters` | internal/core/db_placeholder.go:84-94 | an own schema name hides a foreign one, and one made from a placeholder uncovers it: accepted, then rejected |
| `SqlOrder.LiteralOwnTableMatters` | internal/core/db_placeholder.go:84-94 | an own table name after a placeholder leads a foreign one until substitution: accepted, then rejected |
| `SqlOrder.RejectedMayBecomeAccepted` | internal/core/db_placeholder.go:84-94 | a foreign name right after a placeholder is rejected before substitution and accepted after |
| `SqlTags.TagsMatter` | internal/core/db_placeholder.go:84-94 | with a literal own ID as a dollar tag, substitution closes a region a placeholder's tag left open and a foreign name comes out of it: accepted, then rejected |
| `SqlOrder.PlaceholderEndsName` | internal/core/db_placeholder.go:84-94 | so is a foreign ID right before a placeholder |
| `SqlOrder.MadeNameHidesForeign` | internal/core/db_placeholder.go:84-94 | and a foreign schema name right after one made from a placeholder |
| `LocalTasks.LocalTaskRegistry.Enqueue` | internal/core/local_task.go:46-67 | a new job, the original job, or a refusal exactly when name or payload differ; every other job and the map's sharing unchanged |
| `LocalTasks.LocalTaskRegistry.Start` | internal/core/local_task.go:69-79 | a job starts exactly when it is queued, with its cancel function |
| `LocalTasks.LocalTaskRegistry.Finish` | internal/core/local_task.go:81-90 | only a running job finishes, dropping its cancel function |
| `LocalTasks.LocalTaskRegistry.StatusOf` | internal/core/local_task.go:92-104 | the status reported, or that there is no such job |
| `LocalTasks.LocalTaskRegistry.CancelJob` | internal/core/local_task.go:106-126 | an unfinished job is cancelled and its cancel function handed to the caller once; a finished one is left alone |
| `LocalTaskRuns.StepKeeps` | internal/core/local_task.go:46-179 | every lock section, handler call, return and cancel call keeps the invariant |
| `LocalTaskRuns.RunKeeps` | internal/core/local_task.go:46-179 | the invariant holds after every interleaving |
| `LocalTaskGuarantees.HandledAtMostOnce` | internal/core/local_task.go:145-179 | over any run a job's handler is called at most once, with the payload enqueued, and never before the job leaves the queue |
| `LocalTaskGuarantees.TerminalForever` | internal/core/local_task.go:69-126 | a finished or cancelled job never changes and is never handed to a handler again |
| `LocalTaskGuarantees.CancelledBeforeStartNeverRuns` | internal/core/local_task.go:106-121 | a job cancelled while queued is never run |
| `LocalTaskGuarantees.CancelWins` | internal/core/local_task.go:106-121 | cancelling an unfinished job decides its status for the rest of the run |
| `LocalTaskGuarantees.IdentityIsFirstEnqueue` | internal/core/local_task.go:50-66 | a job exists exactly from its first enqueue on, with that name and payload forever |
| `LocalTaskGuarantees.EnqueueAgain` | internal/core/local_task.go:51-56 | enqueueing a key again conflicts exactly when name or payload differ from the first time, and changes nothing |
| `LocalTaskGuarantees.CancelExactlyWhileRunning` | internal/core/local_task.go:69-126 | the cancel function is present exactly while the job runs, and is its own executor's |
| `LocalTaskGuarantees.CancelCalledAtMostOnce` | internal/core/local_task.go:106-126 | an executor's cancel function is called at most once by cancelJob, and only after its handler was called |
| `LocalTaskGuarantees.VerdictsComeFromHandlers` | internal/core/local_task.go:161-178 | every finished status is the verdict of a handler that returned |
| `LocalTaskGuarantees.SucceededMeansReturnedNil` | internal/core/local_task.go:161-178 | a job reported succeeded had a handler return no error while its context was live |
| `LocalTaskGuarantees.FailedMeansReturnedBadly` | internal/core/local_task.go:161-178 | a job reported failed had a handler that panicked, outlived its deadline, or returned an error under a live context |
| `LocalTaskGuarantees.FinishedExactly` | internal/core/local_task.go:161-178 | a return and the finish after it leave a job not cancelled meanwhile failed, succeeded or cancelled, exactly as panic, deadline, cancel and error say |
| `LocalTaskGuarantees.ContextIsFirstCause` | internal/core/local_task.go:145-172 | a context says which came first, its deadline or the call of its cancel function, and is live until one of them has |
| `LocalTaskCancels.EveryCancelIsCalled` | internal/core/local_task.go:106-126 | each cancel of a running job has its own executor's cancel function called exactly once, or about to be |
| `LocalTaskCancels.PhaseTellsHandled` | internal/core/local_task.go:145-179 | an executor has its handler running, or its verdict, only if the job's handler was called, and one still waiting has not called it |
| `LocalTaskGuarantees.UnfinishedJobsMove` | internal/core/local_task.go:128-179 | every unfinished job has an executor whose next event is possible and moves it on |
| `DevDirectory.ReadDevDirectory` | internal/core/dev_directory.go:571-624 | a lookup returns the only live match, nothing when there is none, and an error when there are several, whatever order rows come in |
| `DevDirectory.PublishKeepsOneRow` | internal/core/dev_directory.go:336-346 | publishing leaves one row per slug, the publisher's own |
| `DevDirectory.Memo.Recall` | internal/core/dev_directory.go:525-529 | a remembered answer is used exactly while it is younger than the cache TTL |
| `DevDirectory.Memo.Store` | internal/core/dev_directory.go:534-548 | sweeping and storing leave exactly the young entries and the new one |
| `DevDirectory.Memo.ColocatedProducer` | internal/core/dev_directory.go:524-550 | a hit from the memo, else a lookup whose answer is stored; the check, the query and the store each read the clock; an error is never stored |
| `DevDirectory.StoreLeavesNothingStale` | internal/core/dev_directory.go:535-548 | after a store no entry has reached the cache TTL |
| `DevDirectory.DashedRefIsMinted` | internal/core/dev_directory.go:626-649 | a ref other than the ID itself resolves to a minted ID exactly when it is that ID's dashed UUID in any letter case |
| `DevDirectoryRuns.RowsArePublished` | internal/core/dev_directory.go:336-351 | in every run each row was stamped by its module's publication of exactly that entry |
| `DevDirectoryRows.ListedExactly` | internal/core/dev_directory.go:315-351 | after any run a module has a row exactly when one of its publications still stands, neither withdrawn, replaced nor robbed of its slug, and the row is what that publication said, stamped then |
| `DevDirectoryRuns.RunIsSound` | internal/core/dev_directory.go:524-624 | in every run every pending and remembered answer names a module that answers to the ref and was stamped recently enough |
| `DevDirectoryRuns.HitIsRecent` | internal/core/dev_directory.go:102-113 | a hit from the memo names a module stamped less than TTL + cacheTTL + the lookup's latency ago |
| `DevDirectoryRuns.AnswerIsRecent` | internal/core/dev_directory.go:559-563 | an answer from the directory names a module stamped less than TTL + latency ago |
| `DevDirectoryRuns.BoundExactly` | internal/core/dev_directory.go:102-113 | a bound on the age of a hit holds of every run exactly when it is at least TTL + cacheTTL + latency |
| `DevDirectoryRuns.DocumentedBoundExactly` | internal/core/dev_directory.go:102-106 | the documented bound TTL + cacheTTL holds of every run exactly when lookups take no time |
| `DevDirectoryRuns.OneRowPerSlugAlways` | internal/core/dev_directory.go:302-313 | over any run of publications and withdrawals a slug has at most one row |
| `DevDirectoryRuns.AmbiguousExactly` | internal/core/dev_directory.go:564-570 | a lookup is refused as ambiguous exactly when the ref is one live module's slug and another's ID |
| `DevDirectoryRuns.MintedNeverAmbiguous` | internal/core/dev_directory.go:564-570 | among modules with minted IDs no lookup is ever ambiguous |
| `DevDirectoryRuns.LeasedModuleIsFound` | internal/core/dev_directory.go:89-101 | within the lease of a module left alone, a lookup of its slug finds it or is ambiguous, and never says it is absent |
| `DynamicSelect.BuildDynamicSelect` | internal/core/select.go:123-168 | a statement is built exactly when names are safe, there is a column and every filter has a value; its text, arguments and limit; otherwise the first unsafe name, the missing column or the first filter without a value |
| `DynamicSelect.FirstUnsafe` | internal/core/select.go:170-183 | the gate passes exactly when every identifier is safe, and otherwise names the first that is not: schema, table, columns, filter columns |
| `SelectRules.OneFirstUnsafe` | internal/core/select.go:170-183 | only one name can be the first unsafe one, so the error is determined |
| `DynamicSelect.WriteFilters` | internal/core/select.go:142-163 | each filter's text and arguments, numbered on from those before |
| `DynamicSelect.WritePlaceholders` | internal/core/select.go:157-162 | consecutive placeholders, one per value appended to the arguments |
| `DynamicSelect.Clamped` | internal/core/select.go:185-196 | the effective limit is the limit asked for exactly when that lies between 1 and 2000, else 200 below and 2000 above |
| `SelectMeaning.StatementReadsBack` | internal/core/select.go:123-168 | reading the statement text gives back schema, table, columns, filter columns and shapes, and the clamped limit plus one; placeholders are 1 to n once each in order |
| `SelectExecution.BindsOwnValues` | internal/core/select.go:142-163 | each filter's placeholders bind exactly its own values among the arguments |
| `SelectExecution.StatementSelectsWanted` | internal/core/select.go:118-168 | executing text and arguments selects exactly the rows the filters ask for |
| `SelectExecution.QueryDynamicSelect` | internal/core/select.go:94-116 | truncation is reported exactly when more rows match than the limit; otherwise all matching rows are returned |
| `DependencyQuery.Query.AddColumns` | internal/core/dependency_db.go:230-244 | columns are added, or the first failing check is kept |
| `DependencyQuery.Query.Where` | internal/core/dependency_db.go:251-259 | an equality filter is added, or the first failing check is kept |
| `DependencyQuery.Query.WhereIn` | internal/core/dependency_db.go:264-281 | an IN filter is added, or the first failing check is kept |
| `DependencyQuery.Query.AddFilter` | internal/core/dependency_db.go:285-300 | shape, one filter per column and the filter cap, in that order |
| `DependencyQuery.Query.SetLimit` | internal/core/dependency_db.go:319-325 | the last limit stays, unless the builder failed before |
| `DependencyQuery.BuiltExactly` | internal/core/dependency_db.go:192-325 | the builder is without error exactly when the calls taken together are within every bound, and then holds exactly their columns, filters and last limit |
| `DependencyQuery.FirstErrorStays` | internal/core/dependency_db.go:192-223 | after the first error nothing changes the builder |
| `DependencyQuery.FiltersToSelect` | internal/core/dependency_db.go:593-616 | the filters come out in column order whatever order the map gives its keys in |
| `DependencyQuery.ListedMeansCalls` | internal/core/dependency_db.go:593-616 | the listed filters say of a row exactly what the filter calls asked for |
| `DependencyQuery.AcceptedIsBuildable` | internal/core/dependency_db.go:543-554 | an accepted builder becomes a statement on a well-named relation exactly when it has a column |
| `Delegation.ActiveMeansTrusted` | auth/middleware.go:75-181 | in every configuration, nesting and mix with module code: an active delegation means the platform surface and either a trusted payload or a passed secret check |
| `Delegation.UnmarkedNeverActive` | internal/actor/context.go:81-91 | off the platform surface no nesting and no module code makes a delegation active |
| `Delegation.NothingAfterBoundary` | auth/middleware.go:237-304 | once a Public or Internal guard has passed a request, no further nesting of guards makes a delegation active or pending |
| `Delegation.HandlersSeeNoWire` | auth/middleware.go:337-357 | behind any of the three guards, in every nesting with guards only after it, no handler sees the delegation or the invocation header |
| `Delegation.ActiveWasBrought` | auth/middleware.go:306-335 | no nesting of guards invents a delegation: an active one is the payload's, the lone header value or the typed invocation's |
| `Delegation.ProxiedPlatformRoute` | auth/middleware.go:415-494 | a proxied request with a complete identity reaches a platform handler exactly when it presents the secret and at most one well-shaped delegation, which is then the active one |
| `Delegation.PayloadPlatformRoute` | auth/middleware.go:82-97 | from a trusted payload with a role a platform handler has exactly the payload's delegation |
| `Delegation.UnprovenIsRejected` | auth/middleware.go:549-591 | without a payload mark no nesting of guards lets a request through that does not present the secret one of its proxy or internal guards demands |
| `Delegation.PlatformNeedsProof` | auth/middleware.go:99-181 | past a PlatformAuth, with no local bypass around, a request that came without a role presented a secret some guard of the nesting expects |
| `Delegation.CheckedMeansProven` | auth/middleware.go:549-591 | a request counts as checked only because some layer found the expected secret in it as it arrived there |
| `Delegation.ActiveMeansProven` | auth/middleware.go:75-181 | behind guards alone an active delegation came with a trusted payload or with a secret one of them expects |
| `Delegation.UncheckedKeepsIdentity` | auth/middleware.go:99-113 | without a checked secret no nesting of guards takes an identity from headers; only the local bypass of PlatformAuth sets one |
| `Delegation.PresetIdentityStays` | auth/middleware.go:507-537 | an identity already there survives every nesting of guards, if it has a role or none of them is PlatformAuth, unless a typed invocation replaces it |
| `Delegation.ProvenClaimsArePromoted` | auth/middleware.go:533-547 | behind any nesting of proxy and internal guards the asserted identity is promoted as it is exactly when a secret was checked, and an empty one mints nothing |
| `Delegation.ConsumeWithin` | auth/invocation.go:43-85 | consuming an invocation leaves no delegation but those the request brought |
| `Delegation.BadInvocationExactly` | auth/invocation.go:43-99 | past the secret a guard answers 400 exactly for an invocation header given twice or unreadable, one for another method, path, body or module, or one the compatibility headers contradict |
| `Delegation.TypedIsBelieved` | auth/invocation.go:43-85 | an invocation that is not refused alone says who the caller is and what is delegated, and leaves no header of the wire |
| `Delegation.TypedPlatformRoute` | auth/middleware.go:415-494 | over a proxied platform route a typed request passes exactly when its invocation fits and has a role, as that identity and with exactly its delegation active |
| `ModuleIds.CanonicalExactly` | ids/ids.go:55-78 | a value canonicalizes to the dashed UUID of a minted ID exactly when it is that ID, digits in any letter case, or that UUID in any letter case |
| `GuardVerdicts.PlatformVerdict` | auth/middleware.go:75-181 | who passes PlatformAuth, and whether anyone else is told 503, 400 or 401, from what the request brings |
| `GuardVerdicts.PlatformHandsOn` | auth/middleware.go:75-181 | behind PlatformAuth: the caller, the active delegation, and every other part of the request |
| `GuardVerdicts.InternalVerdict` | auth/middleware.go:237-304 | who passes InternalAuth, and whether anyone else is told 503, 400 or 401 |
| `GuardVerdicts.InternalHandsOn` | auth/middleware.go:237-304 | behind InternalAuth: the caller, no delegation at all, and every other part of the request |
| `GuardVerdicts.ProxyVerdict` | auth/middleware.go:415-494 | who passes RequireProxy, and whether anyone else is told 403, 400 or 401 |
| `GuardVerdicts.ProxyHandsOn` | auth/middleware.go:415-494 | behind RequireProxy: the caller, the delegation held for later, the proxy mark, and every other part of the request |
| `Paging.Cap` | httpx/page.go:220-253 | the loop computes the specified page: items kept, cursor, truncation and note |
| `Paging.KeptIsFirstFitting` | httpx/page.go:225-239 | the prefix kept is in the chain n, n/2, n/4, ...; it fits or is empty, and no larger one in the chain fits |
| `Paging.CapPageSays` | httpx/page.go:220-253 | what a cut page says of itself: marked and noted exactly when items are missing, the note giving their number, the total and the budget, and the cursor naming the last item kept |
| `Paging.PagesAreTheList` | httpx/page.go:202-253 | if each item alone fits and cursors are distinct, following the cursors gives back the list, nothing repeated or skipped |
| `Paging.PagesCompleteExactly` | httpx/page.go:202-253 | for an encoder that never fails and grows with its list, paging gives back the list exactly when each item alone fits |
| `Base64Url.RoundTrip` | httpx/page.go:118 | decoding gives back what was encoded |
| `Base64Url.EncodeInjective` | httpx/page.go:118 | different bytes have different texts |
| `Base64Url.EncodeLength` | internal/invocationwire/wire.go:133 | the length of an encoding is EncodedLen |
| `Base64Groups.EncodesGroups` | httpx/page.go:118 | an encoding spells its bytes three by three, each group of symbols holding exactly the bits of its bytes in the table of RFC 4648, with zeroes behind the last |
| `Base64Url.DecodesExactly` | internal/invocationwire/wire.go:136-137 | a text decodes to given bytes exactly when, without its line breaks, it is their encoding but for the spare bits of the last symbol |
| `Base64Groups.SkipsOrRefuses` | internal/invocationwire/wire.go:136-137 | a line break anywhere in a text changes nothing of what it decodes to, and any other character out of the table makes it undecodable |
| `Cursors.CursorRoundTrip` | httpx/page.go:105-141 | a printed ID cursor parses back exactly when it is not negative; a negative one parses as the first page |
| `Cursors.CursorInjective` | httpx/page.go:105-120 | different positions have different cursors |
| `Cursors.HeaderExactly` | internal/invocationwire/wire.go:122-145 | a header text is accepted as some bytes exactly when it is the one text those bytes encode to |
| `Cursors.WriteScope` | httpx/strict_page.go:81-93 | the builder loop writes the scope text |
| `Cursors.ScopeInjective` | httpx/strict_page.go:78-93 | different resources or filter tuples have different scope texts, unless one resource continues the other with an open list of length-prefixed values |
| `Cursors.SameResourceInjective` | httpx/strict_page.go:78-93 | for one resource, whatever its name, different filter tuples have different scope texts |
| `Cursors.CollideExactly` | httpx/strict_page.go:78-93 | two different resources share a scope text, for some filters, exactly when one continues the other with an open list |
| `Cursors.PlainNamesAreSafe` | httpx/strict_page.go:78-93 | a resource without a unit separator continues no other |
| `Cursors.SeparatorInResourceCollides` | httpx/strict_page.go:78-93 | a resource holding a unit separator can have the scope text of another resource and filter |
| `DecimalText.ParsePrinted` | httpx/page.go:118-140 | printing and parsing decimal text round-trips for every int64 |
| `Delivery.SplitsExactly` | internal/core/delivery.go:288-305 | a key splits exactly when it is valid, under the gated prefix, with a directory within the bound |
| `Delivery.SplitIsKey` | internal/core/delivery.go:288-305 | prefix and name make up the key; the name is one path segment and the prefix a valid one |
| `Delivery.ComposedFitsExactly` | internal/core/delivery.go:49-55 | the local length bound is exactly the platform's 512 characters on the composed prefix |
| `Delivery.UrlExactly` | internal/core/delivery.go:220-263 | a URL comes back exactly when the key splits and token, parameter, lifetime, prefixes and origin are all usable |
| `Delivery.UrlIsKeyAndToken` | internal/core/delivery.go:113-127 | a returned URL splits at its last question mark into a path ending in exactly the gated key, and exactly the parameter and non-empty token of the answer |
| `DeliveryKeys.KeyExactly` | internal/core/delivery.go:331-350 | a key is accepted exactly when it is a path of non-empty names over letters, digits, dots, underscores and dashes, none with two dots in a row |
| `DeliveryKeys.PrefixExactly` | internal/core/delivery.go:308-329 | a prefix is accepted exactly when it is such a path and a slash, under the gated prefix, of at most 433 characters |
| `DeliveryKeys.KeyRefusals` | internal/core/delivery.go:336-350 | whatever a key is refused for is wrong with it |
| `DeliveryKeys.TicketIsUsable` | internal/core/delivery.go:220-263 | an answer becomes a ticket exactly when its token and parameter need no escaping, it lasts, and its prefixes nest; the ticket is the answer |
| `DeliveryKeys.TicketRefusals` | internal/core/delivery.go:220-247 | whatever an answer is refused for is wrong with it |
| `DeliveryKeys.UrlRefusals` | internal/core/delivery.go:273-286 | what goes wrong with a URL is the key or the answer, and the error is theirs |

## Left out

- HTTP clients and servers, routing, connection pools, cloud storage calls and Lambda start-up: wrappers over libraries that are not part of this model.
- JSON text parsing and UTF-8 validity: values arrive as trees or as token streams, and raw text only with its bytes and its tree.
- PostgreSQL's own lexing beyond the scanner's four region kinds (escape strings, quotes inside quoted identifiers, views): the scanner does not treat them either.
- The error text of refusals: errors are values that name the failing check.
- `internal/core/dev_directory.go:122-132`, the advisory lock and the table creation: a publish batch is one atomic step, so concurrent slug reclamation has no anomalies here.
- UUID normalization of result rows (`internal/core/select.go:198-277`): a per-value rewrite with no bearing on selection or truncation.
- SHA-256 in cursor scopes and body digests: the scope text before hashing is modelled, the digest is not.
- Time cursors: their text is RFC 3339, which would add only calendar arithmetic.
- `internal/invocationwire` validation of the typed invocation's fields: an abstract predicate on canonical bytes.
- The expiry timestamp of a delivery ticket: a convenience copy of the lifetime, which is modelled.
- Delegation.ActiveWasBrought: does not say that a header value has transport shape; Delegation.ProxiedPlatformRoute does for a proxied platform route.
- SqlOrder.AcceptedStaysExactly: for statements whose dollar tags stay apart (every statement without a dollar sign, and every one without the own ID); where a literal own ID stands in a dollar tag stripping itself can change, as SqlTags.TagsMatter shows.
- AuditStore.ClaimFrom: details are kept as the text the module sent; the jsonb column's own reformatting of them is not modelled.
- Paging.PagesCompleteExactly: the encoder is assumed never to fail and to give a list at least the size of each item, which the JSON encoder does for values it can encode.
- LocalTaskRuns.RunKeeps: the executor's deferred cancel of its own context after its work is not an event, because nothing observes that context any more.
