# CRM platform: verified models

Dafny models of the parts of the platform whose correctness spans several operations, several
callers or several points in time, with proofs of what they promise.  Each module opens with
the source file it models.  `dafny verify dfyconfig.toml` checks everything.

| modules | what they are about |
|---|---|
| `SqlLexer`, `SqlScanner`, `SqlCompiler`, `SqlResequencing` | the compiler from numbered SQL parameters to templates |
| `SqlLexemes` | what a SQL text is made of, spelled out |
| `JsonText`, `CanonicalJson`, `JsonReader`, `CanonicalIdentity`, `SafeJson` | canonical JSON, its grammar, and the fingerprints made from it |
| `CanonicalSpelling` | the canonical text letter by letter |
| `SessionStore`, `SessionSafety`, `LoginRate` | session records, account index and rate counters in a key space with expiries |
| `AccountAccess`, `AccountService` | login, resolution, re-authentication, assignment selection and logout on top of it |
| `SessionProgress` | that what was granted resolves |
| `DurableOperation` | at-most-once administration operations |
| `Administrators`, `AccountDirectory`, `RoleGrants` | who may administer, and that somebody always can |
| `AdministratorOutcomes`, `GrantOutcomes` | when commands and grants go through, and what they leave |
| `ConfirmPort`, `ConfirmOutcomes` | publisher confirms over RabbitMQ |
| `ConfirmContention`, `ConfirmLeftovers`, `ConfirmLost` | when one publication answers for another of the same message |
| `ConsumerAdapter`, `ConsumerOutcomes` | bounded consumption over RabbitMQ |
| `PostgresTransaction`, `PostgresOutcomes` | transactions that can be aborted at any await |
| `AiInvocations`, `AiConfirmations`, `AiReconfirmation`, `AiOutcomes` | one model call per operation, proposals and how often they are confirmed |
| `Migrations`, `MigrationProgress`, `MigrationCompatibility` | the resumable migration runner and its compatibility report |
| `BoundedData`, `CollectionState` | the bounded walk over a request body and the URL state of a collection |
| `Basics` | what the others share: an option type, ascending lists, two functions and two facts about finite sets |

Concurrent code is modelled as a state with events: what runs between two awaits, or inside one
script or statement, is one event, and a run is any sequence of events that could happen.  A `Step`
(or `Apply`) function says what an event does, a class with the same fields makes the same change in
place and is proved equal to it, and lemmas over runs say what always holds.  What a step comes to is
stated a second time without the step function, in its own characters, numbers and fields: the lemmas
whose names end in `Exactly` give, for every run, the condition under which each thing happens.

## What is assumed

- Clients and servers share one clock, and a client reads it before its command runs; sessions are
  not created in the future.  A Redis key is there through the millisecond it expires at.
- SHA-256 and HMAC digests are injective, so models use the digested values; random identifiers and
  credentials are never handed out twice.
- Strings are sequences of characters, and of UTF-16 units for JSON; a number is its shortest decimal
  form, with negative zero as zero.  Objects have distinct keys.
- Password hashing, the organization, authorization, audit and budget ports answer from outside; SQL
  is what PostgreSQL documents of locks, unique keys and read-committed visibility.
- System administrators are granted before a run begins and their grants are in force; no code
  modelled here grants or revokes that role.  An account never changes its person.
- The work of a transaction awaits all statements it issues.

## Where the code promises less than it seems to

- The account index need not outlive a session record: a touch whose clock reading is old extends the
  record past its absolute end.  `SessionSafety.TouchKeepsCoveredExactly` says exactly when one touch
  does, `SessionSafety.IndexOutlivesRecordExactly` which runs are free of it, and
  `SessionSafety.LateTouchOutlivesIndex` gives one that is not.  Such a record is never live.
- The idle expiry shown to a caller is the stored one only for a command without delay; otherwise it
  is earlier by that delay (`AccountAccess.ReportedIdleIsHeldLessDelay`, with a run in
  `AccountAccess.LateLoginReportsEarly`).
- A publication confirmed while the connection is blocked stays listed, and can answer for a retry of the
  same message (`ConfirmLost.LeftoverAnswersForRetry`).  Publishing a message is safe from wrong verdicts
  exactly when it is not listed (`ConfirmContention.WrongVerdictExactly`); `ConfirmLost.LostExactly` says
  exactly when a returned publication can be reported delivered.
- A proposal can be confirmed under several operation ids (`AiReconfirmation.ConfirmedTwice`);
  `AiReconfirmation.ConfirmedOnceExactly` says when it is not, and `AiConfirmations.ConfirmsAtMostOnce`
  holds per operation id.
- Normalising the state of a collection again can turn the page when an id is used on two pages
  (`CollectionState.DuplicateIdsMove`); `CollectionState.NormalizeAgainExactly` says exactly when.
- Reading all accounts fails from 10,201 accounts on, not from 10,001 (`AccountDirectory.AllAccounts`).

## Model

| member | source | states |
|---|---|---|
| SqlLexer.LexExact | packages/database/src/prisma-runtime.ts:170-206 | read one character at a time, what the automaton reports are the maximal `$digits` runs that begin in plain text, in order and disjoint; SqlLexemes says what plain text is |
| SqlLexemes.LexemesDecide | packages/database/src/prisma-runtime.ts:170-206 | cut into literals, identifiers, comments, dollar quotations, parameters and single characters, each spelled out with its own characters, a text's genuine placeholders are exactly its parameter lexemes, whichever way it is cut |
| SqlLexemes.EveryTextIsCut | packages/database/src/prisma-runtime.ts:170-206 | every text can be cut so |
| SqlLexemes.DollarOpensExactly | packages/database/src/prisma-runtime.ts:186-189 | a `$` read in plain text opens a quotation iff a dollar sign follows at once, or after a name of A-Z, a-z, `_` and, after its first character, 0-9 |
| SqlLexemes.DollarBodyHoldsNone | packages/database/src/prisma-runtime.ts:186-189 | from there through the next occurrence of the tag, or to the end without one, there is no placeholder |
| SqlLexemes.ValueIsDecimal | packages/database/src/prisma-runtime.ts:192-193 | a digit counts its own value, and in a number every digit ten times what the one after it does |
| SqlLexer.LexGenuineFrom | packages/database/src/prisma-runtime.ts:170-206 | from any point on, whatever the automaton reports is such a run |
| SqlLexer.LexCompleteFrom | packages/database/src/prisma-runtime.ts:170-206 | and it misses none |
| SqlScanner.ParameterPlaceholders | packages/database/src/prisma-runtime.ts:170-206 | the jumping scanner returns exactly what the one-character automaton sees (whose meaning is SqlLexemes.LexemesDecide), or the first number that is not a safe integer; every jump moves forward |
| SqlScanner.SkipQuoted | packages/database/src/prisma-runtime.ts:208-225 | the jump over a quotation ends where the automaton leaves it, with doubled quotes and backslashes, or at the end of the text |
| SqlScanner.SkipBlockComment | packages/database/src/prisma-runtime.ts:227-240 | the jump over a nested comment ends where the automaton's depth returns to zero, or at the end |
| SqlScanner.DollarQuoteSkips | packages/database/src/prisma-runtime.ts:186-189 | jumping to the next occurrence of the opening tag is what reading the quoted body would do |
| SqlScanner.PlainDollar | packages/database/src/prisma-runtime.ts:186-199 | a dollar sign that opens no quotation and names no number is plain text |
| SqlScanner.ParameterFound | packages/database/src/prisma-runtime.ts:191-196 | a dollar sign followed by digits contributes exactly one parameter and reading goes on after it |
| SqlScanner.LineSkips | packages/database/src/prisma-runtime.ts:179-182 | jumping to the end of a line comment is what reading it would do |
| SqlScanner.UsableAll | packages/database/src/prisma-runtime.ts:193-194 | the scan succeeds exactly when every number is a safe integer |
| SqlCompiler.CompileParameterizedSql | packages/database/src/prisma-runtime.ts:138-156 | the loop returns the pieces and the arguments in order exactly for compilable texts, and otherwise the error of the first offending placeholder or of the count |
| SqlCompiler.CompilableExactly | packages/database/src/prisma-runtime.ts:143-151 | compiling succeeds iff every genuine number is at most 9,007,199,254,740,991 and within 1 and the bindings, and the highest is their number |
| SqlCompiler.CompilePreservesMeaning | packages/database/src/prisma-runtime.ts:138-156 | pieces interleaved with the placeholder texts rebuild the SQL; pieces filled with the parameters in order equal the SQL filled by number |
| SqlCompiler.LexChained | packages/database/src/prisma-runtime.ts:170-206 | placeholders follow one another within the text, so the slices between them exist |
| SqlCompiler.PiecesRebuild | packages/database/src/prisma-runtime.ts:146-152 | slicing at the placeholders loses nothing |
| SqlCompiler.PiecesMean | packages/database/src/prisma-runtime.ts:146-155 | filling the slices in order is substituting by number |
| SqlResequencing.SentTextReadsBack | packages/database/src/prisma-runtime.ts:152-155 | numbering the holes of the template `$1..$k` gives a text whose own parameters are exactly those holes, so joining pieces creates or hides no parameter |
| SqlResequencing.ReadBackFrom | packages/database/src/prisma-runtime.ts:152-155 | the same from every point of the text and every mode of the reader |
| JsonText.StringReads | packages/crm-modules/ai-gateway/src/validation.ts:65-69 | a quoted text, with control characters, quotes, backslashes and lone surrogates escaped, reads back as itself |
| JsonText.NumberReads | packages/crm-modules/ai-gateway/src/validation.ts:68-68 | the shortest decimal form of a number, in each of its four layouts, reads back as the number |
| JsonReader.ValueReads | packages/crm-modules/ai-gateway/src/validation.ts:135-135 | a printed value followed by a closing character reads back as the value and leaves the rest |
| JsonReader.ParsePlain | packages/crm-modules/ai-gateway/src/validation.ts:65-70 | printing and then parsing under the grammar of sections 2 to 7 of RFC 8259 gives the value back |
| CanonicalIdentity.CanonicalPrintsNormalized | packages/crm-modules/ai-gateway/src/validation.ts:65-70 | the canonical text is the plain text of the value with every object's members sorted; which order that is, and every other letter, is CanonicalSpelling.CanonicalSpelled |
| CanonicalSpelling.CanonicalSpelled | packages/crm-modules/ai-gateway/src/validation.ts:65-70 | letter by letter: the canonical text parses to the same JSON value and spells it, numbers in the layouts of Number::toString, strings with their escapes, and the members of every object by ascending UTF-16 units of their keys |
| CanonicalIdentity.CanonicalRoundTrip | packages/crm-modules/ai-gateway/src/validation.ts:65-70 | a canonical text exists iff everything in the value is supported, and parses to the value up to the order of members |
| CanonicalIdentity.CanonicalIdentifies | packages/crm-modules/ai-gateway/src/validation.ts:65-71 | canonical texts are equal iff the values are the same JSON value, so the text does not depend on insertion order and a digest of it identifies the value |
| CanonicalIdentity.SortSorted | packages/crm-modules/ai-gateway/src/validation.ts:67-67 | sorting keeps the members and orders them by the keys; that the order is the ascending one is CanonicalSpelling.CanonicalSpelled |
| CanonicalIdentity.SortedUnique | packages/crm-modules/ai-gateway/src/validation.ts:67-67 | sorted members with distinct keys can be ordered in one way only |
| CanonicalIdentity.SameNormalized | packages/crm-modules/ai-gateway/src/validation.ts:65-71 | the same JSON value has one normal form |
| CanonicalIdentity.NormalizedSame | packages/crm-modules/ai-gateway/src/validation.ts:65-71 | and values of one normal form are the same |
| SafeJson.InspectExact | packages/crm-modules/ai-gateway/src/validation.ts:22-44 | the first inspection passes iff every leaf is plain data, nothing is wider than 1,000 and nothing deeper than 20 |
| SafeJson.ScanExact | packages/crm-modules/ai-gateway/src/validation.ts:123-134 | the second passes iff besides no key anywhere is a forbidden one |
| SafeJson.SafeExact | packages/crm-modules/ai-gateway/src/validation.ts:119-136 | input is invalid iff it is not plain data or too wide or too deep, else rejected by policy iff it has a forbidden key or is too long as canonical text; what comes back is the same JSON value |
| SafeJson.FingerprintIdentifies | packages/crm-modules/ai-gateway/src/validation.ts:163-165 | two commands have one fingerprint text iff they agree on everything but the trace id, inputs compared as JSON values |
| SafeJson.FingerprintSpelled | packages/crm-modules/ai-gateway/src/validation.ts:163-165 | the fingerprint text spells the object with exactly the named fields of the command |
| SafeJson.Utf8Counts | packages/crm-modules/ai-gateway/src/validation.ts:135-135 | the length that is bounded is the number of UTF-8 bytes, one to four a character |
| SessionStore.RedisAccessSessionStore.constructor | apps/api/src/auth/local-session-store.ts:183-192 | the store begins empty |
| SessionStore.RedisAccessSessionStore.Create | apps/api/src/auth/local-session-store.ts:58-65 | one atomic step: the indexed session of the account goes, the new record and index entry come with their expiries; an invalid session or time-to-live changes nothing |
| SessionStore.RedisAccessSessionStore.Rotate | apps/api/src/auth/local-session-store.ts:67-75 | one atomic step: replaces the record only if it is there and the account's index names it |
| SessionStore.RedisAccessSessionStore.Touch | apps/api/src/auth/local-session-store.ts:96-105 | returns the record and moves its expiry to the idle window or the absolute end, whichever is nearer; a record past its end is removed |
| SessionStore.RedisAccessSessionStore.Peek | apps/api/src/auth/local-session-store.ts:85-94 | returns the record and its remaining time without extending it |
| SessionStore.RedisAccessSessionStore.Fetch | apps/api/src/auth/local-session-store.ts:214-215 | the GET of a logout changes nothing |
| SessionStore.RedisAccessSessionStore.CompareDelete | apps/api/src/auth/local-session-store.ts:77-83 | removes a record only if it is still what was read, and the index entry only if it names it |
| SessionStore.RedisAccessSessionStore.Delete | apps/api/src/auth/local-session-store.ts:211-219 | without interference a logout ends the session and touches no other record or index entry |
| SessionSafety.OneLiveSession | apps/api/src/auth/local-session-store.ts:58-105 | in every reachable state a live record is the one its account's unexpired index entry names, so at most one session is live per surface and account |
| SessionSafety.RunKeepsAgreement | apps/api/src/auth/local-session-store.ts:58-105 | every interleaving of commands and passing time keeps index and live records in agreement |
| SessionSafety.IndexOutlivesRecord | apps/api/src/auth/local-session-store.ts:58-105 | while every touch runs in the millisecond its client read the clock, no record outlives its index entry |
| SessionSafety.IndexOutlivesRecordExactly | apps/api/src/auth/local-session-store.ts:58-105 | throughout a run no record outlives its index entry iff the delay of each touch in it is one the entry allows for |
| SessionSafety.TouchKeepsCoveredExactly | apps/api/src/auth/local-session-store.ts:96-105 | a delayed touch keeps the record within its index entry iff the delay is within the entry's lead over the absolute end, or the idle window ends before the entry does |
| SessionSafety.LateTouchOutlivesIndex | apps/api/src/auth/local-session-store.ts:96-105 | a concrete run in which a delayed touch leaves a record, no longer live, beyond its index entry, and the next login leaves it in place |
| SessionSafety.RotatedAwayForGood | apps/api/src/auth/local-session-store.ts:67-75 | after a rotation the old credential neither resolves nor rotates again, whatever runs |
| SessionSafety.AtMostOneRotation | apps/api/src/auth/local-session-store.ts:67-75 | of any interleaved rotations of one credential at most one succeeds |
| SessionSafety.RotationHandsOver | apps/api/src/auth/local-session-store.ts:67-75 | a rotation that succeeds leaves the next credential indexed and every other record alone |
| SessionSafety.CreateReplaces | apps/api/src/auth/local-session-store.ts:58-65 | a login ends the account's live session on its surface and no session its index does not name |
| SessionSafety.LogoutSparesOthers | apps/api/src/auth/local-session-store.ts:77-83 | the delete of a logout removes at most the record that was read and an index entry naming it |
| SessionSafety.LogoutSparesNewer | apps/api/src/auth/local-session-store.ts:77-83 | a session that logged in or was rotated to between the two halves of a logout survives it, with its index entry |
| SessionSafety.LoggedOutForGood | apps/api/src/auth/local-session-store.ts:211-219 | after both halves of a logout the credential never resolves or rotates again, whatever came between |
| SessionSafety.IdleSessionEnds | apps/api/src/auth/local-session-store.ts:96-105 | a credential unused for longer than the idle window no longer resolves |
| SessionProgress.CreateAcceptedExactly | apps/api/src/auth/local-session-store.ts:58-65 | a login's session is taken iff its surface fits, its times and revision are in order and it has time left; nothing else is asked |
| SessionProgress.RotateAcceptedExactly | apps/api/src/auth/local-session-store.ts:67-75 | a rotation is taken iff, besides, the old record is held and its account's index names it |
| SessionProgress.ResolvesWhileHeld | apps/api/src/auth/local-session-store.ts:85-105 | whatever others do in between, a record that was there resolves by its credential, with its contents, until it expires and only until then |
| LoginRate.RedisLoginRate.AdmitLoginAttempt | apps/api/src/auth/local-session-store.ts:107-116 | one atomic step over both counters; a refused attempt changes nothing |
| LoginRate.RedisLoginRate.RecordLoginSuccess | apps/api/src/auth/local-session-store.ts:118-123 | one atomic step: drops the identifier's counter and takes one off the source's |
| LoginRate.CountersBounded | apps/api/src/auth/local-session-store.ts:107-123 | every stored counter is in 1..5 or 1..30 and ends at most fifteen minutes from now |
| LoginRate.ExpiryFixedAtCreation | apps/api/src/auth/local-session-store.ts:107-123 | no later attempt or success moves a counter's expiry |
| LoginRate.AtMostTenAdmissions | apps/api/src/auth/local-session-store.ts:107-116 | without successes any half-open fifteen-minute interval holds at most ten admissions of an identifier |
| LoginRate.AdmittedExactly | apps/api/src/auth/local-session-store.ts:107-116 | within the first fifteen minutes an attempt is admitted iff fewer than 5 admissions are charged to the identifier and fewer than 30 to the source, a success taking back the identifier's and one of the source's |
| AccountAccess.RunKeepsConsistent | apps/api/src/auth/account-access-service.ts:70-207 | every record and every snapshot a call still holds carries its login's times, and a flag only for a password check of its chain |
| AccountAccess.ChainsOnlyGrow | apps/api/src/auth/account-access-service.ts:136-172 | a credential stays in the chain of the login it came from |
| AccountAccess.ResolvedBeforeEnd | apps/api/src/auth/account-access-service.ts:184-207 | whoever resolves belongs to one login and, by the clock reading its call took, does so before eight hours have passed since |
| AccountAccess.RotationStaysInChain | apps/api/src/auth/account-access-service.ts:136-172 | re-authentication and assignment selection hand the login's end on unchanged and retire the old credential |
| AccountAccess.FlagNeedsRecentCheck | apps/api/src/auth/account-access-service.ts:130-158 | the re-authenticated flag is up only within five minutes of a password check in the same chain |
| AccountAccess.StoreFollows | apps/api/src/auth/account-access-service.ts:70-207 | the service's store is the store model run on the commands its calls send |
| AccountAccess.CommandsUseIdle | apps/api/src/auth/account-access-service.ts:105-172 | no command asks for more than thirty idle minutes |
| AccountAccess.NoResolveAfterIdle | apps/api/src/auth/account-access-service.ts:184-207 | no resolution succeeds after thirty idle minutes |
| AccountAccess.ReportedIdleIsHeldLessDelay | apps/api/src/auth/account-access-service.ts:118-204 | the reported idle expiry is the held one less the caller's delay: never late, and exact iff there was none |
| AccountAccess.LateLoginReportsEarly | apps/api/src/auth/account-access-service.ts:105-119 | a concrete run: a login whose command arrives five milliseconds after its clock reading reports an expiry five milliseconds before the held one |
| AccountAccess.PeekedIdleIsHeldLessDelay | apps/api/src/auth/account-access-service.ts:125-128 | the same for a look that does not extend, cut off at the absolute end |
| SessionProgress.GrantedResolves | apps/api/src/auth/account-access-service.ts:70-207 | in every run whoever was granted a session by login, re-authentication or selection is resolved by its credential as exactly that session, with the account, person, revision, times and tokens given, while it lasts and only while it lasts, whatever others do |
| AccountService.LoginStored | apps/api/src/auth/account-access-service.ts:105-119 | the store always takes the session a login makes; what is in it is stated by Login and SessionProgress.GrantedResolves |
| AccountService.ReplaceableRotates | apps/api/src/auth/account-access-service.ts:184-207 | a live session its index names resolves, and the rotation right after is accepted |
| AccountService.AccountAccessApplicationService.Login | apps/api/src/auth/account-access-service.ts:70-123 | a login is granted iff every check passes; the credential then resolves for thirty minutes as a session with the account's own fields, store, audit log and counters are exactly as they should be, and a refused login leaves no session of its own |
| AccountService.AccountAccessApplicationService.Resolve | apps/api/src/auth/account-access-service.ts:184-207 | resolves iff the record is there and the account unchanged, active and at work; the reported expiry is the held one |
| AccountService.AccountAccessApplicationService.Replace | apps/api/src/auth/account-access-service.ts:149-171 | ends both rotating calls: granted iff time is left, the roles are known, the rotation is accepted and the audit written; then the new record is live and the old one gone, else the new one is undone |
| AccountService.AccountAccessApplicationService.CheckPassword | apps/api/src/auth/account-access-service.ts:140-148 | rate limit and password decide, and a failure is audited |
| AccountService.AccountAccessApplicationService.Reauthenticate | apps/api/src/auth/account-access-service.ts:136-158 | only the right password raises the flag; the times of the login stay, the counter is given back; an indexed live session that passes every check is not refused |
| AccountService.AccountAccessApplicationService.SelectAssignment | apps/api/src/auth/account-access-service.ts:160-172 | only one of the person's own assignments is selected; end and flag stay; an indexed live session that passes every check is not refused |
| AccountService.AccountAccessApplicationService.Logout | apps/api/src/auth/account-access-service.ts:174-182 | the session ends whichever of its two audit records is written, and no other record is touched |
| AccountService.AccountAccessApplicationService.AuditAfterSessionChange | apps/api/src/auth/account-access-service.ts:230-236 | a session whose audit record is lost is deleted, and only that one |
| DurableOperation.DurableAdministrationOperationPort.InsertPending | apps/api/src/workforce-administration/durable-operation.ts:26-38 | claims a free id, or finds it taken |
| DurableOperation.DurableAdministrationOperationPort.SelectExisting | apps/api/src/workforce-administration/durable-operation.ts:30-37 | the turn that reads the row; that a retry is answered is RetryIsAnswered |
| DurableOperation.DurableAdministrationOperationPort.Commit | apps/api/src/workforce-administration/durable-operation.ts:39-46 | work and row commit together, whether or not the caller hears of it |
| DurableOperation.DurableAdministrationOperationPort.Rollback | apps/api/src/workforce-administration/durable-operation.ts:47-48 | a failure releases the id before it is recorded |
| DurableOperation.DurableAdministrationOperationPort.InsertFailed | apps/api/src/workforce-administration/durable-operation.ts:48-55 | records a failure unless the id has a row by now |
| DurableOperation.DurableAdministrationOperationPort.Execute | apps/api/src/workforce-administration/durable-operation.ts:22-57 | a whole call, its three cases on the row: the same fingerprint is answered with the recorded value, another fingerprint or a failure throws; a free id does the work and records it |
| DurableOperation.RunSound | apps/api/src/workforce-administration/durable-operation.ts:22-57 | in every interleaving with crashes and lost acknowledgements, rows, claims, committed work and answers fit together |
| DurableOperation.RunGrows | apps/api/src/workforce-administration/durable-operation.ts:22-57 | rows and committed work are never changed or taken back |
| DurableOperation.WorkCommitsAtMostOnce | apps/api/src/workforce-administration/durable-operation.ts:22-57 | the work of an id commits at most once |
| DurableOperation.AnswersAreCommitted | apps/api/src/workforce-administration/durable-operation.ts:35-45 | an answer is work committed under the same fingerprint, the caller's own unless it says replayed |
| DurableOperation.AnswersAgree | apps/api/src/workforce-administration/durable-operation.ts:35-45 | all answers for an id are one value under one fingerprint, and one call did the work |
| DurableOperation.FailedNeverSucceeds | apps/api/src/workforce-administration/durable-operation.ts:48-55 | an id recorded as failed never has committed work and is never answered |
| DurableOperation.FailureYieldsToRetry | apps/api/src/workforce-administration/durable-operation.ts:48-55 | a failure insert after a retry committed changes nothing; it records a failure iff no work has committed |
| DurableOperation.RetryIsAnswered | apps/api/src/workforce-administration/durable-operation.ts:30-37 | in every run a call that finds its id taken is answered with the value committed under its own fingerprint, as replayed, and throws if there is none |
| DurableOperation.FreeIdIsClaimed | apps/api/src/workforce-administration/durable-operation.ts:26-29 | an insert that gets through claims an id with no row, and finds one with a row |
| DurableOperation.CommittedIsAnswered | apps/api/src/workforce-administration/durable-operation.ts:39-46 | work that returned commits, and with the acknowledgement its caller is answered with its value, as new |
| ConfirmPort.PublishClaimsOwn | apps/worker/src/rabbit-adapter.ts:300-345 | a publication and the claim in the same turn take the same operation |
| ConfirmPort.RunSound | apps/worker/src/rabbit-adapter.ts:264-363 | over every order of confirms, returns, failures and resumptions the list, the flags and the waiters fit together |
| ConfirmPort.WaitersGetTheirOwn | apps/worker/src/rabbit-adapter.ts:341-354 | in every run a waiter waits for its own publication and shares it with nobody |
| ConfirmPort.RunSole | apps/worker/src/rabbit-adapter.ts:300-361 | a message never published while listed has at most one operation listed, and whoever may come to take it has its own listed |
| ConfirmPort.VerdictIsEarned | apps/worker/src/rabbit-adapter.ts:355-361 | where its message was never published while listed, a waiter takes its own confirmed operation off the list and is told delivered iff the broker has not returned it |
| ConfirmPort.DeliveredWasEarned | apps/worker/src/rabbit-adapter.ts:341-361 | where its message was never published while listed, whoever was told of a delivery had a positive confirm and no return before |
| ConfirmPort.NobodyStranded | apps/worker/src/rabbit-adapter.ts:285-295 | in every run, once the port has failed every waiter can go on |
| ConfirmContention.RunEnough | apps/worker/src/rabbit-adapter.ts:341-361 | in every run a message has at least as many operations listed as waiters that may yet take one off |
| ConfirmContention.WrongVerdictExactly | apps/worker/src/rabbit-adapter.ts:300-361 | in every run, a healthy port's next publication can be answered with another one's verdict, its message not being published again while listed, iff its message is listed when it is published |
| ConfirmLeftovers.RunAttended | apps/worker/src/rabbit-adapter.ts:315-361 | in every run a listed operation the broker has not answered has a waiter that still waits for it |
| ConfirmLeftovers.OnwardStuck | apps/worker/src/rabbit-adapter.ts:300-361 | where every operation of the message that was not returned has more abandoned ones ahead than others can take away, that stays so until the waiter ends |
| ConfirmLost.Drained | apps/worker/src/rabbit-adapter.ts:341-361 | where they can be taken away, some order of confirms and of the other waiters' turns does so, and a returned publication is reported delivered |
| ConfirmLost.LostExactly | apps/worker/src/rabbit-adapter.ts:300-361 | in every run, a healthy port's next publication can be returned and yet reported delivered iff an operation of its message that was not returned is listed, with no more abandoned operations ahead of it than there are waiters to take them away |
| ConfirmLost.LeftoverAnswersForRetry | apps/worker/src/rabbit-adapter.ts:341-361 | a concrete run: after a confirm during a blocked connection, a returned retry of the same message is reported delivered |
| ConfirmOutcomes.FailsExactly | apps/worker/src/rabbit-adapter.ts:238-295 | the port fails iff channel or connection is lost or something is returned that it does not await; blocked is what the broker said last |
| ConfirmOutcomes.AnsweredExactly | apps/worker/src/rabbit-adapter.ts:315-319 | the broker's first answer to a publication stands, and marks just its operation |
| ConfirmOutcomes.ResumedExactly | apps/worker/src/rabbit-adapter.ts:346-354 | a waiter comes through iff its own publication was confirmed positively and the port is open, connected and not blocked; a negative one takes its operation off the list |
| ConfirmOutcomes.GoesThrough | apps/worker/src/rabbit-adapter.ts:300-361 | in every run a healthy port's next publication of a message not listed goes through: confirmed it is reported delivered, returned and confirmed unroutable |
| ConfirmPort.RabbitConfirmPort.Fail | apps/worker/src/rabbit-adapter.ts:285-295 | the loop rejects every listed operation the broker has not answered, once |
| ConfirmPort.RabbitConfirmPort.OnReturn | apps/worker/src/rabbit-adapter.ts:271-281 | marks the listed operation, or fails the port |
| ConfirmPort.RabbitConfirmPort.OnConfirm | apps/worker/src/rabbit-adapter.ts:315-319 | the first answer settles the confirmation |
| ConfirmPort.RabbitConfirmPort.PublishAndClaim | apps/worker/src/rabbit-adapter.ts:300-345 | refused iff the port is not healthy, and then nothing changes |
| ConfirmPort.RabbitConfirmPort.ResumeConfirms | apps/worker/src/rabbit-adapter.ts:346-354 | the waiter's continuation: confirmed on a healthy port, else uncertain |
| ConfirmPort.RabbitConfirmPort.TakeReturned | apps/worker/src/rabbit-adapter.ts:355-361 | the verdict of the first settled operation of the message |
| ConfirmPort.RabbitConfirmPort.OnConnectionLost | apps/worker/src/rabbit-adapter.ts:238-251 | a lost connection or channel fails the port |
| ConsumerAdapter.RunSound | apps/worker/src/rabbit-adapter.ts:397-546 | over every order of replies, deliveries, wake-ups and stops: counts, flights, watches and tags are right |
| ConsumerAdapter.ConcurrencyBounded | apps/worker/src/rabbit-adapter.ts:486-533 | never more than `concurrency` deliveries are inside `accept` |
| ConsumerAdapter.StoppedOnlyWindsDown | apps/worker/src/rabbit-adapter.ts:443-541 | once stopping is set nothing enters `accept`, joins the flight or joins the live tags |
| ConsumerAdapter.LateTagCancelled | apps/worker/src/rabbit-adapter.ts:471-474 | a tag that arrives after stopping or an abort is cancelled in its turn, and its binding is not live then or ever |
| ConsumerAdapter.StopLeavesNoTag | apps/worker/src/rabbit-adapter.ts:535-541 | after acquisition stopped no tag is live, and each one given out is cancelled unless the broker took it back |
| ConsumerAdapter.WaitingCanWake | apps/worker/src/rabbit-adapter.ts:487-488 | a waiting delivery watches one inside `accept` or can look again, so none waits for ever |
| ConsumerAdapter.DrainedIsIdle | apps/worker/src/rabbit-adapter.ts:548-562 | when everything in flight at a stop has settled, nobody is inside `accept` |
| ConsumerOutcomes.EntersExactly | apps/worker/src/rabbit-adapter.ts:451-489 | in every run a delivery enters `accept` as it arrives or wakes iff the adapter has not stopped, a place is free and what it waited for did not fail; without a place it waits |
| ConsumerOutcomes.LeavesExactly | apps/worker/src/rabbit-adapter.ts:461-533 | whoever leaves `accept` frees its place and is settled as it ended |
| ConsumerOutcomes.TagExactly | apps/worker/src/rabbit-adapter.ts:471-474 | a consumer tag becomes live iff it arrives before any stop or abort, and is cancelled otherwise |
| ConsumerOutcomes.StopsExactly | apps/worker/src/rabbit-adapter.ts:425-541 | the adapter stops on a broker's cancel, a failed delivery, an abort, its own stop or a failed channel, and on nothing else |
| ConsumerOutcomes.CancelsExactly | apps/worker/src/rabbit-adapter.ts:535-541 | stopping cancels exactly the tags that were live |
| ConsumerAdapter.RabbitConsumerAdapter.OnConsumeReply | apps/worker/src/rabbit-adapter.ts:471-474 | the turn after a consumer was registered |
| ConsumerAdapter.RabbitConsumerAdapter.OnMessage | apps/worker/src/rabbit-adapter.ts:451-470 | the delivery callback |
| ConsumerAdapter.RabbitConsumerAdapter.OnServerCancel | apps/worker/src/rabbit-adapter.ts:452-458 | the broker takes a consumer back |
| ConsumerAdapter.FailuresStop | apps/worker/src/rabbit-adapter.ts:461-488 | a delivery fails only because `accept` failed, its own or one it was kept waiting by, and a failure seen by the adapter stops it |
| ConsumerAdapter.RabbitConsumerAdapter.Schedule | apps/worker/src/rabbit-adapter.ts:487-489 | one look of a delivery: wait, leave or enter |
| ConsumerAdapter.RabbitConsumerAdapter.OnRaceSettled | apps/worker/src/rabbit-adapter.ts:487-487 | a settled race rejects the waiting delivery if what it watched failed; otherwise the delivery looks again |
| ConsumerAdapter.RabbitConsumerAdapter.FinishAccept | apps/worker/src/rabbit-adapter.ts:529-532 | leaving `accept` frees a place |
| ConsumerAdapter.RabbitConsumerAdapter.OnSettled | apps/worker/src/rabbit-adapter.ts:461-469 | a settled delivery leaves the flight; a failed one stops the adapter |
| ConsumerAdapter.RabbitConsumerAdapter.StopAcquisition | apps/worker/src/rabbit-adapter.ts:535-541 | cancels all live tags once |
| ConsumerAdapter.RabbitConsumerAdapter.OnAbort | apps/worker/src/rabbit-adapter.ts:447-448 | an abort stops acquisition |
| ConsumerAdapter.RabbitConsumerAdapter.OnChannelFailure | apps/worker/src/rabbit-adapter.ts:425-435 | so does a failure of the channel |
| PostgresTransaction.RunSound | packages/database/src/runtime.ts:104-223 | over every abort, settlement and cancellation: ownership of the connection and the log of statements fit together |
| PostgresTransaction.GivenBackOnce | packages/database/src/runtime.ts:169-223 | an acquired connection is given back exactly once by the end, and never twice |
| PostgresTransaction.StatementsOnLiveConnection | packages/database/src/runtime.ts:104-223 | a statement goes out only on a transaction not destroyed and a connection not given back; commit only when all statements are settled and none failed |
| PostgresTransaction.FailureRulesOutCommit | packages/database/src/runtime.ts:118-119 | a failed statement rules commit out for good, even if the caller swallowed the failure |
| PostgresTransaction.ReturnedMeansCommitted | packages/database/src/runtime.ts:203-211 | a call that returned had its commit acknowledged after clean work, and sent no rollback |
| PostgresTransaction.NeverStuck | packages/database/src/runtime.ts:205-222 | a call waiting for its cancellation can always be moved on |
| PostgresOutcomes.SentExactly | packages/database/src/runtime.ts:104-223 | in every run each turn sends exactly its statement: begin once acquired, a rollback when something went wrong on a live connection, a commit after clean work, and nothing else |
| PostgresOutcomes.CommitSentExactly | packages/database/src/runtime.ts:203-210 | commit goes out iff work ended well with no abort, no destruction and no failed statement |
| PostgresOutcomes.CleanWorkCommits | packages/database/src/runtime.ts:203-211 | clean work is committed, and its result returned as soon as the commit is acknowledged |
| PostgresOutcomes.ReturnedExactly | packages/database/src/runtime.ts:210-223 | a call returns its result iff its commit was acknowledged |
| PostgresOutcomes.DecidedExactly | packages/database/src/runtime.ts:187-217 | in every run a turn settles the call to return iff it acknowledges its commit, and to throw iff it is one of the turns written out |
| PostgresOutcomes.FailedExactly | packages/database/src/runtime.ts:115-122 | a statement counts as failed iff it settled badly or settled while its own signal was aborted |
| PostgresOutcomes.DestroyedExactly | packages/database/src/runtime.ts:189-199 | a transaction is destroyed iff it was aborted on its connection, a statement of it was, or its rollback failed |
| PostgresOutcomes.CancellationEnds | packages/database/src/runtime.ts:86-102 | however connecting and cancelling fare, a cancellation comes nearer to its end with every turn |
| PostgresOutcomes.SomethingCanHappen | packages/database/src/runtime.ts:169-223 | until the call is over some turn of it can happen |
| PostgresOutcomes.CallReturnedExactly | packages/database/src/runtime.ts:127-156 | a single statement with a signal returns iff it came back before anybody aborted it |
| PostgresTransaction.CallGivenBackOnce | packages/database/src/runtime.ts:127-156 | the same for a single statement with a signal, and one that returned was not cancelled |
| PostgresTransaction.PostgresTransactionCall.TerminateConnection | packages/database/src/runtime.ts:31-35 | gives the connection back destroyed |
| PostgresTransaction.PostgresTransactionCall.DestroyTransaction | packages/database/src/runtime.ts:189-193 | starts the cancellation once |
| PostgresTransaction.PostgresTransactionCall.CatchError | packages/database/src/runtime.ts:212-217 | rolls back unless destroyed |
| PostgresTransaction.PostgresTransactionCall.OnAbort | packages/database/src/runtime.ts:195-199 | an abort while the listener stands destroys the transaction |
| PostgresTransaction.PostgresTransactionCall.OnAcquired | packages/database/src/runtime.ts:187-201 | a connection acquired after an abort goes straight back |
| PostgresTransaction.PostgresTransactionCall.OnBegun | packages/database/src/runtime.ts:201-203 | work starts only after begin succeeded and nobody aborted |
| PostgresTransaction.PostgresTransactionCall.Execute | packages/database/src/runtime.ts:104-115 | a statement is sent iff the transaction is not destroyed and its own signal not aborted |
| PostgresTransaction.PostgresTransactionCall.OnSignal | packages/database/src/runtime.ts:112-113 | a statement's signal destroys the transaction |
| PostgresTransaction.PostgresTransactionCall.OnStatement | packages/database/src/runtime.ts:115-122 | the first failure is kept |
| PostgresTransaction.PostgresTransactionCall.OnWorkEnd | packages/database/src/runtime.ts:203-210 | the turn after the work; that clean work is committed is PostgresOutcomes.CommitSentExactly |
| PostgresTransaction.PostgresTransactionCall.OnCancellation | packages/database/src/runtime.ts:86-102 | the cancellation always ends in terminating the connection |
| PostgresTransaction.PostgresTransactionCall.OnCancellationAwaited | packages/database/src/runtime.ts:205-208 | a destroyed transaction throws after its cancellation |
| PostgresTransaction.PostgresTransactionCall.OnCommit | packages/database/src/runtime.ts:210-217 | returns iff commit was acknowledged |
| PostgresTransaction.PostgresTransactionCall.OnRollback | packages/database/src/runtime.ts:213-216 | a failed rollback destroys the transaction |
| PostgresTransaction.PostgresTransactionCall.Release | packages/database/src/runtime.ts:218-222 | the connection goes back unless it was terminated |
| AiInvocations.ModelCalledAtMostOnce | packages/crm-modules/ai-gateway/src/service.ts:87-121 | in every interleaving the model is called at most once per operation id, and its count says so |
| AiInvocations.CallersShareOutcome | packages/crm-modules/ai-gateway/src/service.ts:87-92 | callers with one command share the outcome and only the first is told it is new; with different commands at least one gets a conflict |
| AiInvocations.CreatedIsStored | packages/crm-modules/ai-gateway/src/service.ts:152-154 | an outcome promised to a caller has its proposal stored and its model call made |
| AiConfirmations.StoredAfterRecord | packages/crm-modules/ai-gateway/src/service.ts:152-153 | a proposal is stored only after its success record was accepted |
| AiInvocations.OperationsLast | packages/crm-modules/ai-gateway/src/service.ts:170-170 | an operation keeps its command and, once settled, its outcome |
| AiInvocations.RunSound | packages/crm-modules/ai-gateway/src/service.ts:76-172 | operations, callers, calls and proposals fit together in every reachable state |
| AiOutcomes.AnswersDecide | packages/crm-modules/ai-gateway/src/service.ts:95-171 | in every run the answers of the ports so far decide where an operation is and what it comes to: leave, budget, model, record, in this order; four yeses create the proposal, a refusal is recorded and told as what it was, and as an unreachable adapter if it cannot be recorded |
| AiOutcomes.ReachedOnce | packages/crm-modules/ai-gateway/src/service.ts:95-171 | and they leave it in one place only |
| AiOutcomes.CalledExactly | packages/crm-modules/ai-gateway/src/service.ts:101-121 | the model is called for an operation iff leave and budget were given |
| AiOutcomes.InvokedExactly | packages/crm-modules/ai-gateway/src/service.ts:87-94 | the first caller of an id starts it, one with the same command waits for it, any other is told of the conflict at once |
| AiOutcomes.ToldExactly | packages/crm-modules/ai-gateway/src/service.ts:90-92 | a caller that waited is told the operation's outcome, as new if it was the first and as a replay if not |
| AiOutcomes.NobodyIsStuck | packages/crm-modules/ai-gateway/src/service.ts:87-171 | an awaited port can answer either way, and a waiting caller is told once its operation has settled |
| AiInvocations.AiInvocationService.Invoke | packages/crm-modules/ai-gateway/src/service.ts:87-94 | the first turn: join, conflict or start, with the entry made in the same turn |
| AiInvocations.AiInvocationService.OnPortAnswer | packages/crm-modules/ai-gateway/src/service.ts:100-168 | the turn after each port's answer, on the good and the failing path |
| AiInvocations.AiInvocationService.OnSettled | packages/crm-modules/ai-gateway/src/service.ts:90-91 | the continuation of a caller |
| AiConfirmations.ConfirmedAfterRecord | packages/crm-modules/ai-gateway/src/service.ts:182-187 | whatever is confirmed names a stored, matching, unexpired proposal whose success record was accepted earlier |
| AiConfirmations.ConfirmsAtMostOnce | packages/crm-modules/ai-gateway/src/service.ts:177-202 | of two runs of one confirmation id at most one can have succeeded or still succeed |
| AiReconfirmation.ConfirmedOnceExactly | packages/crm-modules/ai-gateway/src/service.ts:174-202 | in every run a proposal has at most one run that succeeded or still can iff the requests that started such runs carry one operation id |
| AiReconfirmation.SecondRunExactly | packages/crm-modules/ai-gateway/src/service.ts:177-199 | with one such run under way, a request starts a second iff its operation id has no entry and the proposal can be confirmed |
| AiReconfirmation.ConfirmableTwice | packages/crm-modules/ai-gateway/src/service.ts:177-199 | every run with a proposal that can be confirmed goes on to one in which two runs of it are confirmed under two ids |
| AiReconfirmation.ConfirmedTwice | packages/crm-modules/ai-gateway/src/service.ts:177-199 | a concrete run from the beginning that confirms one proposal under two ids |
| AiOutcomes.ConfirmationTaken | packages/crm-modules/ai-gateway/src/service.ts:177-199 | a confirmation joins the run of its id if it is the same command and is refused if another; with none it starts one iff it names a stored, unexpired proposal of its use case and resource whose use case is on |
| AiOutcomes.ConfirmationEnds | packages/crm-modules/ai-gateway/src/service.ts:188-201 | a run is confirmed iff it was allowed; a denied one goes, and its id is free again |
| AiConfirmations.WaitersSeeOneRun | packages/crm-modules/ai-gateway/src/service.ts:177-181 | a caller that waits sees a run of its own command |
| AiConfirmations.StepKeepsDesk | packages/crm-modules/ai-gateway/src/service.ts:174-202 | entries and runs fit together, also when a failed run takes its entry away |
| AiConfirmations.AiConfirmationService.Confirm | packages/crm-modules/ai-gateway/src/service.ts:174-199 | the first turn: join, refuse or start; a refusal changes nothing |
| AiConfirmations.AiConfirmationService.OnAuthorization | packages/crm-modules/ai-gateway/src/service.ts:188-198 | the authorizer decides the run |
| AiConfirmations.AiConfirmationService.OnFailure | packages/crm-modules/ai-gateway/src/service.ts:200-201 | a failed run's entry goes |
| Administrators.NeverWithoutAdministrator | apps/api/src/workforce-administration/facade.ts:213-227 | however commands interleave, an active account of a system administrator remains |
| Administrators.SoleAdministratorRefused | apps/api/src/workforce-administration/facade.ts:216-221 | deactivating the only active administrator is refused |
| Administrators.DeactivationNeedsLock | apps/api/src/workforce-administration/facade.ts:184-225 | an administrator's account stops being active only by another administrator's deactivation, which holds the lock and counted two |
| Administrators.DeactivationLeavesOthers | apps/api/src/workforce-administration/facade.ts:224-225 | a deactivation leaves every other administrator |
| Administrators.OthersKeepAdministrators | apps/api/src/workforce-administration/facade.ts:193-243 | no other commit takes one away |
| AdministratorOutcomes.PermittedExactly | apps/api/src/workforce-administration/facade.ts:154-239 | a command is let through iff there is no reason to refuse it, the reasons of each kind written out |
| AdministratorOutcomes.OpenedExactly | apps/api/src/workforce-administration/facade.ts:154-239 | the revisions a command goes by are those of its account when it began |
| AdministratorOutcomes.SeenExactly | apps/api/src/workforce-administration/facade.ts:218-219 | an account is counted iff it was read before and was then active and a system administrator's |
| AdministratorOutcomes.DecidedExactly | apps/api/src/workforce-administration/facade.ts:216-221 | a deactivation goes on iff two different such accounts were counted |
| AdministratorOutcomes.WrittenExactly | apps/api/src/workforce-administration/facade.ts:166-234 | a command writes iff its account kept the revision it was read at, a password the security revision |
| AdministratorOutcomes.CommittedExactly | apps/api/src/workforce-administration/facade.ts:215-236 | a commit leaves its account as its kind says and every other alone |
| Administrators.AccountAdministration.Begin | apps/api/src/workforce-administration/facade.ts:154-239 | a command goes ahead iff it passes every guard on actor, target, roles, re-authentication and revision; otherwise nothing changes |
| Administrators.AccountAdministration.LockSystemAdministratorSet | apps/api/src/workforce-administration/facade.ts:217-217 | takes the lock for the rest of the transaction |
| Administrators.AccountAdministration.ReadAccount | apps/api/src/workforce-administration/facade.ts:218-219 | one account of the count, as committed when it is read |
| Administrators.AccountAdministration.RequireAnotherAdministrator | apps/api/src/workforce-administration/facade.ts:220-220 | refuses at one or none |
| Administrators.AccountAdministration.WriteRow | apps/api/src/workforce-administration/facade.ts:166-234 | writes only at the revision that was read, a password only at the security revision, a new account only where there is none |
| Administrators.AccountAdministration.CommitTransaction | apps/api/src/workforce-administration/facade.ts:215-236 | what each kind of command commits |
| Administrators.AccountAdministration.RollbackTransaction | apps/api/src/workforce-administration/facade.ts:215-225 | a refused or failed command changes no account |
| AccountDirectory.AllAccounts | apps/api/src/workforce-administration/facade.ts:330-342 | page by page every account comes back once and in order, for up to 10,200 accounts; beyond that it fails |
| AccountDirectory.PageAt | apps/api/src/workforce-administration/facade.ts:335-337 | each page starts where the one before ended |
| RoleGrants.FixedRoleGrantStore.Grant | packages/crm-modules/authorization/src/fixed-roles.ts:81-106 | succeeds iff the scope fits, no other grant has its id or operation, and person and assignment exist together unless the grant stands already; adds at most the one grant, respecting the table's constraints |
| RoleGrants.FixedRoleGrantStore.Revoke | packages/crm-modules/authorization/src/fixed-roles.ts:122-130 | ends a grant once, not before it began, and changes nothing earlier |
| RoleGrants.FixedRoleAdministrationGrantPort.RevokeAmong | apps/api/src/workforce-administration/authorization-grants.ts:38-41 | ends every grant in force among them that has no end set yet, and fails iff one has; the past and everything else stay |
| RoleGrants.FixedRoleAdministrationGrantPort.MoveApplicationUser | apps/api/src/workforce-administration/authorization-grants.ts:54-58 | the role moves to the new assignment; system administrators stay the same rows |
| RoleGrants.FixedRoleAdministrationGrantPort.SetCrmAdministrator | apps/api/src/workforce-administration/authorization-grants.ts:59-67 | turned on there is a grant, turned off none is in force; system administrators stay the same rows |
| GrantOutcomes.GrantedExactly | packages/crm-modules/authorization/src/fixed-roles.ts:81-106 | the condition of a grant row by row: the scope fits the role, and id and operation are new and the role held already or the person and assignment there, or it is the same grant again |
| GrantOutcomes.InForceAfterRevoking | apps/api/src/workforce-administration/authorization-grants.ts:38-41 | revoking takes a role from its time on, from exactly the open grants of that person, role and assignments that had begun; every other grant is in force when it was |
| GrantOutcomes.RevocableExactly | apps/api/src/workforce-administration/authorization-grants.ts:38-41 | and it fails iff one of them in force has an end set for later |
| GrantOutcomes.AllowedExactly | packages/crm-modules/authorization/src/fixed-roles.ts:175-185 | allowed is an approved permission some grant carries: a system administrator's always, any other role's own ones for the selected active assignment |
| RoleGrants.SameAdministrators | apps/api/src/workforce-administration/authorization-grants.ts:50-53 | with the same rows the same persons are system administrators at every time |
| RoleGrants.CommandsKeepAdministrators | apps/api/src/workforce-administration/authorization-grants.ts:42-67 | over any run of commands that keep those rows the system administrators are the same persons, whenever one looks |
| RoleGrants.StandingAdministratorStays | packages/crm-modules/authorization/src/fixed-roles.ts:107-121 | a system administrator by an unrevoked grant stays one |
| RoleGrants.OnlySelectedAssignmentCounts | packages/crm-modules/authorization/src/fixed-roles.ts:175-185 | without an active selected assignment only a system administrator is allowed anything |
| RoleGrants.GrantsOnlyAllow | packages/crm-modules/authorization/src/fixed-roles.ts:175-185 | more grants never forbid, and nothing unapproved is allowed |
| Migrations.MigrationRunner.RunMigrations | packages/database/src/migrations.ts:152-202 | the loop, which reads the registry once, is the run that looks each version up as it stands |
| Migrations.RunKeeps | packages/database/src/migrations.ts:167-197 | every row belongs to exactly one committed script, and rows stay |
| Migrations.InterruptedRunResumes | packages/database/src/migrations.ts:152-202 | after an interruption of any kind at any point, running again gives what an uninterrupted run would have given |
| Migrations.FinishedMeansApplied | packages/database/src/migrations.ts:167-197 | success means every migration is recorded under its checksum and its script committed exactly once |
| Migrations.FinishedRunIsStable | packages/database/src/migrations.ts:167-170 | after success a further run changes nothing |
| Migrations.ModifiedIsRefused | packages/database/src/migrations.ts:168-169 | no run finishes over a recorded migration that was changed |
| Migrations.EmptyChecksumBlocks | packages/database/src/migrations.ts:168-170 | a row with an empty checksum counts as not applied, and its key stops the run |
| MigrationProgress.FreshRunFinishesExactly | packages/database/src/migrations.ts:152-202 | an undisturbed run on an empty database finishes iff each migration can follow those before it, and then leaves every row with what the evidence script filled in |
| MigrationCompatibility.CompareOrders | packages/database/src/migration-compatibility.ts:42-47 | semantic versions are totally ordered |
| MigrationCompatibility.SupportsExactly | packages/database/src/migration-compatibility.ts:42-64 | a range holds its minimum and what is higher in the first of major, minor and patch that differs, up to but without its maximum |
| MigrationCompatibility.CompatibleExactly | packages/database/src/migration-compatibility.ts:66-126 | compatible iff rows and catalog match one to one, row by row, and the version is in every half-open range |
| MigrationCompatibility.CheckMigrationCompatibility | packages/database/src/migration-compatibility.ts:66-126 | the loops report exactly the issues of each migration and of each unknown row |
| MigrationCompatibility.RowIssuesExact | packages/database/src/migration-compatibility.ts:82-110 | a migration has no issue iff its row is its own with its evidence, and supports the version |
| MigrationCompatibility.ReportedExactly | packages/database/src/migration-compatibility.ts:66-126 | each issue is in the report iff its own condition on the rows, the catalog and the version holds, and the report's version is the highest row's |
| MigrationCompatibility.ReportAfterFreshRun | packages/database/src/migration-compatibility.ts:66-126 | after a finished run from an empty database, compatible iff the version is in every declared range and the backfilled evidence is the declared one |
| MigrationCompatibility.RowAfterRun | packages/database/src/migrations.ts:172-192 | what a finished run leaves in a migration's row |
| BoundedData.CheckBounds | apps/api/src/platform-http/form-schema-http.ts:116-129 | the stack walk accepts iff the recursive node count is at most 10,000 and the recursive container depth at most 32; the pending nodes shrink with every visit |
| BoundedData.MeasuresMean | apps/api/src/platform-http/form-schema-http.ts:116-129 | a container counts one more than all its items or member values and is one deeper than the deepest of them; anything else counts one and has depth zero |
| BoundedData.Visit | apps/api/src/platform-http/form-schema-http.ts:120-127 | replacing an entry by its children costs one node and changes no depth verdict |
| BoundedData.VisitAnywhere | apps/api/src/platform-http/form-schema-http.ts:120-127 | the same whichever entry is visited next |
| CollectionState.NormalizeIsFixed | apps/workbench-web/src/pages.tsx:21-39 | with unique ids normalising a normalised state changes nothing, with the same path selection or none |
| CollectionState.NormalizedIsConsistent | apps/workbench-web/src/pages.tsx:21-39 | the page is in range, the selected item is on it, and an existing path selection is the selected one |
| CollectionState.TabAndFilterExactly | apps/workbench-web/src/pages.tsx:21-30 | the tab of the item in the path is shown, and the requested filter if it exists and does not hide that item, else `all`; without one, the requested tab and filter if they exist |
| CollectionState.FilteredOne | apps/workbench-web/src/pages.tsx:30-30 | an item is shown iff it is on the tab and the filter is `all` or its status |
| CollectionState.FilteredApart | apps/workbench-web/src/pages.tsx:30-30 | what is shown of a list is what is shown of its parts, in order |
| CollectionState.PageExactly | apps/workbench-web/src/pages.tsx:31-37 | five items a page: the page the selection is on and that selection, else the requested page within what exists and its first item |
| CollectionState.NormalizeAgainExactly | apps/workbench-web/src/pages.tsx:21-39 | for any ids: with the same path selection normalising again changes nothing; with none it changes nothing iff the first item that has the selected id is on the page shown |
| CollectionState.DuplicateIdsMove | apps/workbench-web/src/pages.tsx:21-39 | a concrete collection with one id on two pages, where normalising again turns the page |
| CollectionState.PlacedOnPage | apps/workbench-web/src/pages.tsx:31-37 | the page shown exists and holds the selection |
| CollectionState.PlacedAgain | apps/workbench-web/src/pages.tsx:31-37 | placing again with the same selection changes nothing; with the selection made, iff that is found on the page shown |

## Left out

- The back-pressure path of the confirm port: after a drain several publishers may claim in another order than they published.
- Several runs of one consumer adapter, the retry publication inside a delivery, and what `accept` does with a message.
- Prisma's own template type and driver, and which statements return rows; the Prisma runtime's transaction state.
- Health checks, pool configuration, and work that leaves statements running when it ends.
- SafeJson.InspectExact: does not model prototypes and property descriptors, because a value here is already data; accessors, hidden or missing elements and foreign prototypes, which the source also refuses, do not exist in it.
- The schema validation of AI use cases and the text patterns of identifiers.
- Redis replies that are malformed or fail in transport, the byte limit of a stored session, and records another program wrote.
- The normalisation of login identifiers into rate keys, HTTP, cookies and the views' role lists.
- The organization facts an account command writes besides the account row, and the directory commands for departments and positions.
- Filtering and paging of the account list, its views, and the flattening of the department tree.
- Recording of authorization decisions, and the data scope terms beyond everything or the selected assignment.
- The audit module's own canonical text, which differs only in skipping undefined members, and its checks of changed fields.
- Reading migration files and their metadata, declared compatibility texts, and scripts whose SQL touches the registry in other ways than the two that exist.
- Realtime connections, whose version check and version write are separated by an await.
