# Verified core of the contact-centre platform

This project models the parts of the platform whose correctness is a statement about unbounded
inputs, whole runs or interleavings, and proves those statements in Dafny 4.11:

| file | what it models |
|---|---|
| `BusinessHours.dfy`, `BusinessHoursProofs.dfy`, `WorkingTimeProofs.dfy`, `AddingProofs.dfy`, `OpeningProofs.dfy` | the three day-by-day scans of the SLA calculator, measured against the point-wise test `isOpenAt` |
| `Schemas.dfy`, `SchemaProofs.dfy`, `SchemaLimits.dfy`, `SchemaKeywords.dfy` | the translation of validator schemas into OpenAPI Schema Objects (section 4.7.24 of the OpenAPI Specification 3.0.3), with a meaning over JSON values on both sides |
| `Idempotency.dfy`, `AtMostOnce.dfy` | idempotency keys on POST requests, the SDK's retry loop, and both over a lossy network |
| `Sessions.dfy`, `SingleFlight.dfy`, `Lockout.dfy` | refresh-token rotation (the idea of section 10.4 of RFC 6749), the browser client that shares one refresh, and login lockout |
| `RateLimit.dfy` | the fixed-window counter and the token lock, on Redis keys with expiry |
| `Outbox.dfy`, `OutboxProofs.dfy` | the transactional outbox: transactions that commit or roll back, publishers, the relay, and crashes between their steps |
| `TenantGuard.dfy` | the query rewriting that keeps organizations apart |
| `Customers.dfy`, `CustomerProofs.dfy` | contact keys, customer merging and the chain of tombstones |
| `Pagination.dfy` | cursor pagination over a list that changes between fetches |
| `Conversations.dfy` | the life of a conversation row, with overlapping operations |
| `Agents.dfy` | draft, publish and rollback of agent versions |
| `Options.dfy`, `Integers.dfy` | the option type, minimum and maximum |

`dafny verify dfyconfig.toml` checks the project.

## How it is built

Code that changes state step by step is a class whose methods carry the source's loops and
assignments; each method's contract equates the new state with a step function of the old one (or
the result with a specification function of the inputs). Where several requests, clients or jobs
interleave, the same step functions are the events of a state machine, and the theorems quantify
over every list of events. Pure code is functions and lemmas. Time is an integer clock moved by
events; ids and tokens are drawn afresh.

An event is a stretch of code between two awaits that matter to the property at hand: the
database, Redis and network calls of the interceptor, the refresh, the browser, the counter, the
lock, the relay and the publisher are events of their own, with a process that can die between
them. A conversation operation is its read and its one write. An edit of an agent is its read and
its two writes, a publication or a rollback its read and its transaction or write, and any of them
can die in between. A merge of customers is its reads, one event, and its transaction, another,
whose statements are atomic. Creating a customer, adding a contact method or a record, a login
attempt and a guarded query are one event each. For the operations in parts a lemma says that parts
which nothing interrupts are the operation as a whole (`ExecIsRun`, `MergeIsRun`, `EditIsRun`,
`PublishIsRun`, `RollbackIsRun`).

## What turned out not to hold

Where the code falls short of what its comments promise, the model follows the code: there is an
input or a run that shows it, and a lemma that says for all inputs or runs exactly when the promise
is met.

- `assertValidRules` accepts rules of one weekday that overlap or run past midnight.
  `elapsedWorkingMs` is the measure of `isOpenAt` if and only if they do neither; `addWorkingMinutes`
  inverts it if and only if, besides, they are listed in order (`AddExact`); from a closed instant
  `nextOpening` is right if and only if, as soon as any window listed from there on opens the
  business, the first listed does so, and earliest (`NextOpeningExact`). A morning rule listed after the afternoon one is passed over
  (`NextOpeningOutOfOrder`), and a rule that starts at 24:00 or later, which `isOpenAt` never
  honours, is found (`LateRuleMisleads`).
- Published schemas do not mean what the validator means for: a nullable enum or literal, and a
  literal that is null or an array (`EnumerationExact`, `LiteralExact`); a property that may be
  absent although none of its first twenty layers says so (`AbsenceExact`); a union that accepts a
  value valid under two published options, as every value of `z.number()` next to `z.null()` is,
  whose schema is empty (`UnionExact`, `UnknownOptionUnsound`); an intersection that accepts
  something other than objects (`IntersectionExact`); a length limit or format checked after
  trimming (`TrimExact`); and minimum lengths that fewer characters outside the Basic Multilingual
  Plane meet (`LengthsExact`).
- A purge can take the row of a request that still runs or is about to release its key: a later
  retry and a third request can then both succeed. At-most-once survives a purge if and only if it
  takes no such row (`PurgeExact`). A purge that is safe in that sense can still take the row of a
  response on its way to be stored, which then lands in the row of another body and is replayed to it
  (`BelatedComes`, `LateStoreMisleads`); replays are right if and only if no store does that
  (`ReplayExact`).
- A refresh reads the session, revokes it and replaces it in three steps. Two overlapping refreshes
  of one token both succeed (`InterleavedRefreshForks`); over a whole run the chains stay linear if
  and only if every successor is issued for a session that has none (`LinearExact`). Revoking all
  sessions keeps a user signed out if and only if no exchange was under way (`RevocationLasts`). A
  browser that loses a new token presents the rotated one next time, and the server signs the user
  out everywhere (`LosingExact`, `LostAnswerIsReuse`).
- A rejected request can move the end of a rate-limit window: if and only if its own increment saw
  no expiry and another request's expire has come in between, earlier than now and less than a
  window ago (`RequestMovesEndExact`, `RejectedMovesEnd`).
- `published` is not final: a drain that read the row earlier, and fails to mark it, makes it pending
  again (`PublishedIsNotFinal`). A step of a run uses up an attempt if and only if it marks a pending
  row, or records a failure of a row that is pending with no more attempts than were read
  (`StepProgress`).
- A guarded update moves rows to another organization if its payload names one (`Confined`).
- Merging a pair of customers again deletes the survivor's contact methods (`MergeKeepsKeys`);
  merging a survivor into its own tombstone, or two customers into each other at once, makes a cycle
  (`RedirectKeepsForest`, `StaleMergeForest`, `OverlappingMergesCycle`). A contact added to the
  source between the reads of a merge and its transaction stays on the tombstone
  (`LateContactStranded`, `LateContactExact`). Over interleaved runs nothing is lost or stranded if
  and only if every step lands right (`InheritanceExact`).
- `assign` and `transfer` do not consult the transition table: they reopen resolved and closed
  conversations in ways the table forbids (`TableRespected`). Operations that overlap can do so as
  well (`WriteRespectsTable`), record a later reply as the first response, and store a redelivered
  message twice (`OrderExact`).
- `get` loads the newest twenty agent versions, so editing after a rollback further back forks the
  newest version instead of the live one (`ForkOfLive`); an edit that overlaps a publication changes
  the published version, and nothing else does (`ImmutableExact`); a fork that dies between its two
  writes, or overlaps another fork, leaves an unpublished version that is not the draft
  (`DyingEditExact`, `OverlappingForks`). The draft stays the newest and the only unpublished
  version if and only if every write lands tidily (`TidyExact`).
- A page whose cursor row was deleted comes back empty, and the listing ends there; if the row has
  only left the filter, the page skips the row after it (`RestMeaning`). Rows present throughout are
  lost if and only if one of them is the first row after a cursor row that left the filter, or lies
  anywhere after one that was deleted (`DeliveryExact`).

## Model

| member | source | states |
|---|---|---|
| BusinessHours.CollectWindows | apps/api/src/modules/directory/business-hours.ts:115-140 | the loop over a day's rules gives the windows of the rules of that weekday, in rule order, none on a holiday and no empty ones |
| BusinessHours.ElapsedWorkingMs | apps/api/src/modules/directory/business-hours.ts:49-72 | the bounded day loop with its window loop computes `Elapsed`, whose meaning is `TidyElapsed` and `ElapsedExact` |
| BusinessHours.UseWindows | apps/api/src/modules/directory/business-hours.ts:85-94 | the loop over one day's windows: where the time asked for is used up, or how much of it remains |
| BusinessHours.AddWorkingMinutes | apps/api/src/modules/directory/business-hours.ts:75-99 | the day loop with its early returns and wall-clock fallback computes `Add`, whose meaning is `AddExact` |
| BusinessHours.NextOpening | apps/api/src/modules/directory/business-hours.ts:102-113 | the search computes `NextOpeningAt`, whose meaning is `NextOpeningExact` |
| BusinessHoursProofs.OpenExact | apps/api/src/modules/directory/business-hours.ts:38-46 | in terms of the clock: open means no rules, or no holiday and some rule for the weekday of the local day, counted from Thursday 1 January 1970, that holds at the local time of day |
| BusinessHoursProofs.WholeDayOpens | apps/api/src/modules/directory/business-hours.ts:127-131 | a rule for a whole weekday, 0 being Sunday, opens the business on exactly every seventh day |
| BusinessHoursProofs.AllWeekElapsed | apps/api/src/modules/directory/business-hours.ts:49-72 | open all week, elapsed time is wall-clock time up to the end of the 800th day from the start |
| BusinessHoursProofs.TidyElapsed | apps/api/src/modules/directory/business-hours.ts:38-72 | for rules inside the day that do not overlap, elapsed working time is the number of milliseconds of the interval, up to the end of the 800-day scan, at which the business is open |
| BusinessHoursProofs.ElapsedExact | apps/api/src/modules/directory/business-hours.ts:49-72 | elapsed time equals that measure on every interval if and only if no rule runs past midnight and no two rules of a weekday overlap |
| WorkingTimeProofs.ElapsedAdditive | apps/api/src/modules/directory/business-hours.ts:49-72 | elapsed(a,b) + elapsed(b,c) = elapsed(a,c) for c within the first scan |
| WorkingTimeProofs.AddThenElapsed | apps/api/src/modules/directory/business-hours.ts:49-99 | measuring the time that was added gives back the minutes asked for, whenever that much open time lies in the scan |
| WorkingTimeProofs.OrderedAdd | apps/api/src/modules/directory/business-hours.ts:75-99 | for ordered rules the result is the least instant with the requested open time behind it, and wall-clock time exactly when the scan does not hold that much |
| WorkingTimeProofs.AddComposes | apps/api/src/modules/directory/business-hours.ts:75-99 | adding m minutes and then n is adding m + n, when that much open time lies in the scan |
| AddingProofs.AddExact | apps/api/src/modules/directory/business-hours.ts:75-99 | for all rules that fit the HH:mm format, adding keeps that promise for every start and every positive duration if and only if no rule runs past midnight and the rules of each weekday are listed in order without overlap |
| OpeningProofs.NextOpeningExact | apps/api/src/modules/directory/business-hours.ts:101-113 | for all rules, holidays and instants: the result is the earliest open instant at or after the input, or the input when nothing opens in the scan, if and only if it is open there, or the first window listed from there on opens the business and no listed one does so earlier, or none does and that window starts at the input or is missing |
| OpeningProofs.NextOpeningByDay | apps/api/src/modules/directory/business-hours.ts:101-113 | for rules that open before midnight: this holds for every input if and only if, of the windows of a day that start no earlier than one which ends a closed time, the first listed starts earliest |
| OpeningProofs.NextOpeningEarliest | apps/api/src/modules/directory/business-hours.ts:101-113 | rules listed by opening time suffice; the input comes back exactly when it is open or nothing opens in the scan |
| OpeningProofs.NextOpeningOutOfOrder | apps/api/src/modules/directory/business-hours.ts:107-111 | with the afternoon rule listed first, the morning opening is skipped |
| OpeningProofs.LateRuleMisleads | apps/api/src/modules/directory/business-hours.ts:102-113 | a rule that starts at 24:00 or later, alone, opens nothing, yet from the start of its day its window is found |
| Schemas.UnwrapLoop | apps/api/src/core/http/zod-openapi.ts:40-77 | the loop of at most 20 steps strips the presence wrappers and collects optional, nullable and the default |
| Schemas.CompileShape | apps/api/src/core/http/zod-openapi.ts:131-137 | the loop over an object's properties gives their schemas, the last one of a repeated key, and the keys that are not optional, in order |
| Schemas.CompileOptions | apps/api/src/core/http/zod-openapi.ts:150-155 | the options of a union are translated in order |
| Schemas.CompileInner | apps/api/src/core/http/zod-openapi.ts:88-172 | the construct under the wrappers gets its keywords, on top of those the wrappers gave |
| Schemas.ZodToOpenApi | apps/api/src/core/http/zod-openapi.ts:79-180 | the recursive translation computes `Compile`, whose meaning is `Sound` and `Exact` |
| SchemaProofs.Sound | apps/api/src/core/http/zod-openapi.ts:79-180 | every JSON value the validator accepts is valid under the published schema, including `required`, `additionalProperties` and `oneOf`, for faithful schemas: no enumeration, literal or union is nullable, no literal is null or an array, no trim precedes the published length or format, properties that may be absent show it, options of a union exclude each other, and an intersection has a side that accepts nothing but objects |
| SchemaProofs.Exact | apps/api/src/core/http/zod-openapi.ts:79-180 | for schemas without refinements, intersections or dates, whose checks are all published, whose defaults are accepted, whose keys are unique, whose properties show if they may be absent and whose options exclude each other: validator and published schema agree on every value |
| SchemaProofs.ExclusiveMeaning | apps/api/src/core/http/zod-openapi.ts:150-155 | no value is valid under two published options whose types or enumerations differ, or those of a property that both require |
| SchemaLimits.EnumerationExact | apps/api/src/core/http/zod-openapi.ts:114-117 | an enum or literal under any wrappers is published soundly if and only if the validator refuses null |
| SchemaLimits.AbsenceExact | apps/api/src/core/http/zod-openapi.ts:51-75 | objects with unique keys and properties published soundly, which some value meets: the object is published soundly if and only if every property that may be absent shows it in one of the first 20 layers of its schema, by an optional or a default |
| SchemaLimits.UnwrapSees | apps/api/src/core/http/zod-openapi.ts:51-75 | a schema is unwrapped as optional if and only if one of the layers looked at is optional or has a default |
| SchemaLimits.UnknownPropertyUnsound | apps/api/src/core/http/zod-openapi.ts:134-137 | a property of a type the translation does not know, such as any, that may be absent: the object is never published soundly |
| SchemaLimits.UnionExact | apps/api/src/core/http/zod-openapi.ts:150-155 | a union of faithful options, however wrapped, is published soundly if and only if no value it accepts is valid under two of the published options, and null, if accepted, is valid under one |
| SchemaLimits.UnknownOptionUnsound | apps/api/src/core/http/zod-openapi.ts:150-155 | in a union with an option the translation does not know, such as null, no value that another faithful option accepts is valid as published |
| SchemaLimits.LiteralExact | apps/api/src/core/http/zod-openapi.ts:114-115 | a literal is published soundly if and only if it is neither null nor an array |
| SchemaLimits.IntersectionExact | apps/api/src/core/http/zod-openapi.ts:156-165 | an intersection of two faithful schemas is published soundly if and only if it accepts nothing but objects |
| SchemaLimits.ScalarIntersectionUnsound | apps/api/src/core/http/zod-openapi.ts:156-165 | an intersection of two boolean schemas accepts a boolean, while the published schema asks for an object |
| SchemaLimits.TrimExact | apps/api/src/core/http/zod-openapi.ts:88-100 | trims, lengths, and formats that refuse a blank at either end, which some string meets with room for one more character before the first trim: they are published soundly if and only if a format is checked before every trim, or there is no format and no trim precedes the published limit |
| SchemaLimits.LengthsExact | apps/api/src/core/http/zod-openapi.ts:97-98 | on all strings, with the validator counting UTF-16 units and the published schema characters: lengths that some string meets are published soundly if and only if twice the published minimum is at most one more than the greatest minimum |
| SchemaLimits.MinLengthExact | apps/api/src/core/http/zod-openapi.ts:97-97 | a single minimum is published soundly on all strings if and only if it is at most one |
| SchemaKeywords.DefaultExact | apps/api/src/core/http/zod-openapi.ts:51-84 | the published default is the fallback of the innermost default among the first 20 layers, and there is none exactly if none of them has one |
| SchemaKeywords.NullableExact | apps/api/src/core/http/zod-openapi.ts:51-83 | a schema is published as nullable exactly if one of the first 20 layers is nullable |
| SchemaKeywords.StringKeywords | apps/api/src/core/http/zod-openapi.ts:88-113 | a string is published with its first minimum, its first maximum and the standard name of its first format, a date as a string in date-time format |
| SchemaKeywords.NumberKeywords | apps/api/src/core/http/zod-openapi.ts:101-111 | a number is published as an integer exactly if some check asks for one, with its first lower and its first upper bound |
| SchemaKeywords.IntersectionAgrees | apps/api/src/core/http/zod-openapi.ts:156-165 | for an intersection of plain open objects without a common key, validator and published schema agree on every value |
| Idempotency.Interceptor.Enter | apps/api/src/core/http/idempotency.interceptor.ts:33-36 | a request with a key goes on to the look-up, one without a key to its handler |
| Idempotency.Interceptor.HandleUnkeyed | apps/api/src/core/http/idempotency.interceptor.ts:33-34 | without a key the handler's result is the reply, and nothing is looked up or stored |
| Idempotency.Interceptor.Lookup | apps/api/src/core/http/idempotency.interceptor.ts:44-59 | a key row with another hash or without a response is a conflict, one with a response is replayed, a missing one lets the request go on |
| Idempotency.Interceptor.Insert | apps/api/src/core/http/idempotency.interceptor.ts:61-70 | the unique insert is won by one request, which runs; the loser gets a conflict and touches nothing |
| Idempotency.Interceptor.OnNext | apps/api/src/core/http/idempotency.interceptor.ts:72-74 | the handler's success is logged once, and the response is about to be stored |
| Idempotency.Interceptor.StoreResponse | apps/api/src/core/http/idempotency.interceptor.ts:74-81 | the response goes into the key's row if there is one and the write succeeds |
| Idempotency.Interceptor.OnError | apps/api/src/core/http/idempotency.interceptor.ts:82-83 | a failed handler leads to the release of the key |
| Idempotency.Interceptor.ReleaseKey | apps/api/src/core/http/idempotency.interceptor.ts:82-87 | release deletes whatever row the key has, unless the delete fails |
| Idempotency.Interceptor.PurgeExpired | apps/api/src/workers/workers.service.ts:169-183 | exactly the expired rows go |
| SdkClient.Send | packages/sdk/src/http.ts:81-119 | every verb but GET, HEAD and DELETE carries the caller's key or a fresh one; attempts are repeated only after status 429 or 5xx, at most maxRetries times, and never without a key unless the verb is one of the three; the last outcome is handed out |
| AtMostOnceProofs.AtMostOnce | apps/api/src/core/http/idempotency.interceptor.ts:33-89 | in every interleaving of requests, crashes, failed writes and purges in which no purge takes the row of a request that still runs or releases, two successes of one non-empty key lie in different lives of the key |
| AtMostOnceProofs.PurgeExact | apps/api/src/workers/workers.service.ts:169-183 | from every state the invariant allows: a purge keeps at-most-once for all that can follow if and only if it takes no such row |
| AtMostOnceProofs.OnlyOwnerReleases | apps/api/src/core/http/idempotency.interceptor.ts:61-87 | a row disappears only when it has expired or through the one request that inserted it, never through a loser of the insert |
| AtMostOnceProofs.SlowHandlerRunsTwice | apps/api/src/core/http/idempotency.interceptor.ts:82-87 | such a purge can come: a request that runs for longer than the time to live, after which two others succeed in one life |
| AtMostOnceProofs.LookupExact | apps/api/src/core/http/idempotency.interceptor.ts:44-59 | a look-up replays a stored response exactly for the same body, and conflicts with status 409 exactly for another body or while there is no response |
| AtMostOnceProofs.LoserExact | apps/api/src/core/http/idempotency.interceptor.ts:61-70 | the insert is won exactly if there is no row; the loser gets status 409 and changes nothing else |
| AtMostOnceProofs.RetryIsReplayed | apps/api/src/core/http/idempotency.interceptor.ts:72-81 | after a stored success another request with the key gets the same payload for the same body, and a conflict for another |
| AtMostOnceProofs.InFlightIsConflict | apps/api/src/core/http/idempotency.interceptor.ts:57-58 | while a request runs every other with its key gets a conflict |
| AtMostOnceProofs.FailureFreesKey | apps/api/src/core/http/idempotency.interceptor.ts:82-87 | after a failure that is released the next request with the key runs |
| AtMostOnceProofs.UnkeyedExact | apps/api/src/core/http/idempotency.interceptor.ts:33-34 | a request without a key is answered by its handler and leaves the key table alone |
| AtMostOnceProofs.KeyLivesADay | apps/api/src/core/http/idempotency.interceptor.ts:61-70 | a purge takes a key row exactly if more than 24 hours have passed since its insert |
| AtMostOnceProofs.ReplayExact | apps/api/src/core/http/idempotency.interceptor.ts:44-81 | in every interleaving, whatever is replayed was created for the same key with the same body, if and only if no response is stored into a row inserted for another body |
| AtMostOnceProofs.LateStoreMisleads | apps/api/src/core/http/idempotency.interceptor.ts:72-81 | from every state in which a response is on its way and its row is gone: it is stored into the row that another body inserts, and replayed to that body |
| AtMostOnceProofs.BelatedComes | apps/api/src/workers/workers.service.ts:169-183 | a purge that is safe for at-most-once leads to such a state when it takes the row of a response on its way |
| AtMostOnceProofs.ClientIsSend | packages/sdk/src/http.ts:96-118 | the client of the end-to-end runs goes on, returns and throws where the loop of `send` does |
| AtMostOnceProofs.EndToEnd | packages/sdk/src/http.ts:96-118 | whatever replies are lost, a call of `send` for a POST makes at most maxRetries + 1 attempts, and one if its key is empty; while its key is not purged its attempts succeed at most once; if the call returns, the operation succeeded exactly once, with the payload returned |
| Sessions.AuthService.IssueSession | apps/api/src/modules/auth/auth.service.ts:278-320 | a new unrevoked session for the user, pointing at the one it was rotated from |
| Sessions.AuthService.RevokeAllSessions | apps/api/src/modules/auth/auth.service.ts:428-432 | exactly the user's unrevoked sessions become revoked |
| Sessions.AuthService.CheckRefresh | apps/api/src/modules/auth/auth.service.ts:358-378 | an unknown, expired or orphaned token is refused; a revoked one revokes all sessions of its user; otherwise the exchange is approved |
| Sessions.AuthService.RetireSession | apps/api/src/modules/auth/auth.service.ts:380-383 | the approved session is revoked, whatever happened since |
| Sessions.AuthService.ReplaceSession | apps/api/src/modules/auth/auth.service.ts:385-398 | a successor of the session is issued to its user |
| Sessions.AuthService.LogoutSession | apps/api/src/modules/auth/auth.service.ts:401-409 | the presented session is revoked, an unknown token changes nothing |
| SessionProofs.RunKeepsParents | apps/api/src/modules/auth/auth.service.ts:278-440 | in every run, however exchanges overlap, a session's predecessor is older, revoked and of the same user |
| SessionProofs.LinearExact | apps/api/src/modules/auth/auth.service.ts:358-398 | over every run: no session has two successors if and only if every successor was issued for a session that had none |
| SessionProofs.RunKeepsChains | apps/api/src/modules/auth/auth.service.ts:278-440 | and in those runs the sessions form chains |
| SessionProofs.SameRootIsLinear | apps/api/src/modules/auth/auth.service.ts:358-398 | sessions descending from one login lie on one line |
| SessionProofs.OneLivePerChain | apps/api/src/modules/auth/auth.service.ts:358-398 | in those runs, of the sessions descending from one login only the last can be unrevoked |
| SessionProofs.RevocationIsPermanent | apps/api/src/modules/auth/auth.service.ts:364-440 | in every run a revoked session stays revoked, and a session keeps its user and predecessor |
| SessionProofs.ReuseRevokesAll | apps/api/src/modules/auth/auth.service.ts:364-368 | presenting a revoked token, in any state, leaves its user without an unrevoked session |
| SessionProofs.RotationExact | apps/api/src/modules/auth/auth.service.ts:380-398 | the last step of a refresh keeps the chains linear if and only if the session has no successor yet |
| SessionProofs.RevocationLasts | apps/api/src/modules/auth/auth.service.ts:358-432 | revoking all sessions keeps the user signed out until the next login, in every run, if and only if no exchange of the user was between its steps at that moment |
| SessionProofs.CheckExact | apps/api/src/modules/auth/auth.service.ts:358-378 | an exchange is approved exactly for a token that exists, is not revoked, has not expired and whose member still is one |
| SessionProofs.TokenLasts | apps/api/src/modules/auth/auth.service.ts:278-378 | whatever happens after a token was issued, by login or rotation: it can be exchanged if and only if its session is not revoked, no more than its time to live has passed and the membership still exists |
| SessionProofs.RotateExact | apps/api/src/modules/auth/auth.service.ts:380-398 | the two writes of a refresh revoke the session now and issue its successor to the same user with a new time to live |
| SessionProofs.LogoutExact | apps/api/src/modules/auth/auth.service.ts:401-409 | logging out ends exactly the session presented |
| SessionProofs.RevokeAllExact | apps/api/src/modules/auth/auth.service.ts:428-432 | revoking all ends exactly the unrevoked sessions of the user; the others keep their time |
| SessionProofs.InterleavedRefreshForks | apps/api/src/modules/auth/auth.service.ts:360-398 | from every state with an unexpired live session and two unused call ids, two overlapping exchanges of it leave two unrevoked sessions with one predecessor |
| SingleFlight.Browser.RefreshSession | apps/web/src/lib/api.ts:50-54 | a 401 without a stored token gives up, one that finds a refresh in flight joins it, any other starts one with the stored token |
| SingleFlight.Browser.FinishRefresh | apps/web/src/lib/api.ts:61-72 | the new tokens replace the old or a refusal clears them, the flight ends, and exactly its waiters are sent again or fail |
| SingleFlight.Browser.AbandonRefresh | apps/web/src/lib/api.ts:68-72 | a transport failure keeps the stored token and fails the waiters |
| SingleFlight.SingleFlight | apps/web/src/lib/api.ts:47-127 | in every interleaving of 401s, lost posts, lost refusals, server deaths and other users' activity in which no new token is lost, at most one refresh is in flight, it presents the stored token, unrevoked until it is exchanged, and the server never detects a reuse |
| SingleFlight.UnauthorizedExact | apps/web/src/lib/api.ts:50-78 | in those runs a 401 fails without a stored token, and otherwise waits for the refresh in flight or starts one with the stored token |
| SingleFlight.RefreshReleases | apps/web/src/lib/api.ts:61-128 | and once the answer is in, the new token is stored and every request that waited is sent again, or the token is dropped and each of them fails; nobody waits any more |
| SingleFlight.LostPostReleases | apps/web/src/lib/api.ts:68-72 | a refresh that never reached the server keeps the token and fails everyone who waited |
| SingleFlight.RequestsGoForward | apps/web/src/lib/api.ts:120-128 | over every run a request is sent twice at most and settled once |
| SingleFlight.LosingExact | apps/web/src/lib/api.ts:68-72 | losing an answer or the server keeps that invariant if and only if the token the client still stores has not been revoked |
| SingleFlight.LostAnswerIsReuse | apps/api/src/modules/auth/auth.service.ts:364-368 | one lost answer, and the next 401 revokes every session of the user |
| Lockout.Account.RecordFailedLogin | apps/api/src/modules/auth/auth.service.ts:263-274 | the count grows by one; from the fifth failure on the account is locked for 60 seconds doubled per failure, six times at most |
| Lockout.Account.Login | apps/api/src/modules/auth/auth.service.ts:151-195 | a locked account is refused without looking at the password; wrong passwords and codes are recorded, an inactive account or a missing code is not, success resets |
| Lockout.AttemptExact | apps/api/src/modules/auth/auth.service.ts:151-195 | over every run an attempt is recorded as a failure if and only if the failures since the last success leave no lock and the password or code is wrong; an unlocked correct attempt empties the list, and nothing else changes it |
| Lockout.FifthLocks | apps/api/src/modules/auth/auth.service.ts:263-274 | the fifth wrong attempt in a row locks the account for exactly a minute |
| Lockout.RunIsSpaced | apps/api/src/modules/auth/auth.service.ts:151-195 | over every run of serial attempts the count is the number of failures since the last success, and consecutive failures from the fifth on are a lock apart |
| Lockout.BackoffBounds | apps/api/src/modules/auth/auth.service.ts:266-266 | no lock exceeds 3840 seconds, which is reached at the eleventh failure |
| Lockout.LockedSecondsClosed | apps/api/src/modules/auth/auth.service.ts:263-274 | the sum of the locks in closed form |
| Lockout.FailuresTakeTime | apps/api/src/modules/auth/auth.service.ts:151-274 | from the fifth to the n-th failure at least that sum has passed, and the account is then locked exactly until the n-th lock ends |
| RateLimit.LimitFor | apps/api/src/core/http/rate-limit.guard.ts:51-54 | the limit is the scaled one rounded half up, and one where that would be zero |
| RateLimit.Limiter.IncrAndTtl | apps/api/src/core/redis/redis.service.ts:88-94 | the counter of a live key grows, a dead key starts a new life at one without expiry; a request that sees no expiry owes one |
| RateLimit.Limiter.SetExpiry | apps/api/src/core/redis/redis.service.ts:94-97 | the owed expiry is set if the key still exists |
| RateLimit.Limiter.CanActivate | apps/api/src/core/http/rate-limit.guard.ts:56-88 | a request passes exactly if its count is within the limit, and the header says what remains |
| RateLimitProofs.LifeLimit | apps/api/src/core/http/rate-limit.guard.ts:69-87 | in every interleaving at most `limit` requests pass during one life of the key |
| RateLimitProofs.LifeExact | apps/api/src/core/http/rate-limit.guard.ts:69-87 | over every run exactly the first `limit` of the requests in the current life of the key pass |
| RateLimitProofs.WindowLimit | apps/api/src/core/redis/redis.service.ts:84-99 | at most twice `limit` pass in any half-open interval of the window's length, even with deaths between increment and expire |
| RateLimitProofs.RequestMovesEndExact | apps/api/src/core/redis/redis.service.ts:84-99 | whatever happens between a request's increment and its expire, rejected or not: it moves the end of a window if and only if its own increment saw no expiry and the last expire of another request that took effect since is older than now but less than a window old |
| RateLimitProofs.RejectedCanMoveEnd | apps/api/src/core/redis/redis.service.ts:84-99 | from every state with a full counter that has no expiry, while one request owes it and another comes in, there is a run in which the other is rejected and moves the end |
| RateLimitProofs.RejectedMovesEnd | apps/api/src/core/http/rate-limit.guard.ts:70-86 | such a run from the start, with limit 1 |
| RateLimitProofs.ExtendsOnlyWithoutExpiry | apps/api/src/core/redis/redis.service.ts:88-98 | a request that is not interrupted never moves the end of a window, and sets it exactly if there is none |
| RateLimitProofs.WindowMovesOnlyByDebt | apps/api/src/core/redis/redis.service.ts:94-97 | a step moves the end of a window if and only if it is an expire still owed, at another instant than the one the end counts from |
| RedisLock.Lock.AcquireLock | apps/api/src/core/redis/redis.service.ts:106-109 | the key is taken exactly if no unexpired one is there |
| RedisLock.Lock.ReleaseLock | apps/api/src/core/redis/redis.service.ts:110-114 | the key goes exactly if it is unexpired and carries the holder's token |
| RedisLock.MutualExclusion | apps/api/src/core/redis/redis.service.ts:106-115 | in every run with fresh tokens no two acquisitions hold the lock at one instant |
| RedisLock.AcquireExact | apps/api/src/core/redis/redis.service.ts:106-109 | in every run with fresh tokens an acquisition succeeds if and only if every earlier one was released or has run out |
| RedisLock.ReleaseExact | apps/api/src/core/redis/redis.service.ts:110-114 | and a release takes effect exactly while its holder still holds |
| RedisLock.SlowReleaseIsHarmless | apps/api/src/core/redis/redis.service.ts:110-114 | the release of a holder whose time is over changes nothing |
| RedisLock.RepeatedTokenFreesNewer | apps/api/src/core/redis/redis.service.ts:107-107 | with a repeated token it frees the newer lock |
| Outbox.Relay.FindPending | apps/api/src/core/events/outbox.relay.ts:31-35 | the oldest pending rows with attempts left, 100 at most |
| Outbox.Relay.Deliver | apps/api/src/core/events/outbox.relay.ts:54-81 | one row is emitted and marked, or recorded as failed with the attempts it was read with |
| Outbox.Relay.Drain | apps/api/src/core/events/outbox.relay.ts:26-87 | the batch is handled row by row, up to the first write that fails altogether |
| Outbox.EventBus.PublishEvent | apps/api/src/core/events/event-bus.service.ts:39-106 | inside a transaction the row is created, for others to see when it commits, and nothing else happens; outside the row is created, emitted, and marked unless that fails |
| OutboxProofs.OutboxSafety | apps/api/src/core/events/event-bus.service.ts:67-105 | in every interleaving of transactions, publishers, drains and deaths: an emitted row's transaction has committed, a published row was emitted, and a committed pending row has attempts left and is among the due rows |
| OutboxProofs.PublishExact | apps/api/src/core/events/event-bus.service.ts:39-106 | an event published inside a transaction is one of its rows, for nobody to see yet; outside it is committed and due at once |
| OutboxProofs.TransactionExact | apps/api/src/core/events/event-bus.service.ts:67-73 | in every run the end of a transaction decides exactly the rows it created: committed they are due, rolled back they are not |
| OutboxProofs.RolledBackNeverEmitted | apps/api/src/core/events/event-bus.service.ts:70-73 | a row that was rolled back has not been emitted, and is not in any continuation of the run |
| OutboxProofs.StepProgress | apps/api/src/core/events/outbox.relay.ts:61-80 | in every state of every run, a step lowers the sum of attempts left if and only if it marks a pending row, or records a failure of a row that is pending with no more attempts than were read |
| OutboxProofs.RecordingProgress | apps/api/src/core/events/outbox.relay.ts:67-80 | the same for one write |
| OutboxProofs.PublishedIsNotFinal | apps/api/src/core/events/outbox.relay.ts:66-80 | a run in which a published row becomes pending again and is due |
| OutboxProofs.BatchExact | apps/api/src/core/events/outbox.relay.ts:31-35 | the batch is the committed pending rows with fewer than ten attempts, in order; only with a hundred of them are later ones left out |
| OutboxProofs.DrainExact | apps/api/src/core/events/outbox.relay.ts:38-81 | row by row: the batch is emitted in order and each row marked, or recorded as failed and dead with its tenth failure, up to the row where the drain ends; every other row is left as it is |
| OutboxProofs.DrainIsRun | apps/api/src/core/events/outbox.relay.ts:26-87 | a drain that nothing interrupts is its steps one after another |
| OutboxProofs.DrainDelivers | apps/api/src/core/events/outbox.relay.ts:38-65 | when the marks succeed, a drain emits its batch in order and publishes exactly those rows, each with one more attempt |
| OutboxProofs.DrainProgress | apps/api/src/core/events/outbox.relay.ts:38-81 | an undisturbed drain uses up at least one attempt for every row of its batch |
| OutboxProofs.DrainsFinish | apps/api/src/core/events/outbox.relay.ts:26-87 | whatever deliveries fail, after as many drains as there are attempts left no row is pending |
| TenantGuard.StampRows | apps/api/src/core/prisma/tenant-guard.extension.ts:88-92 | every row of a creation carries the organization, whatever it carried before |
| TenantGuard.Intercept | apps/api/src/core/prisma/tenant-guard.extension.ts:64-100 | the in-place rewriting narrows every constrainable operation to the organization and stamps every row created, for tenant models outside system bypass |
| TenantGuardProofs.NoContextNoQuery | apps/api/src/core/prisma/tenant-guard.extension.ts:64-77 | without an organization in context a query is refused exactly if its model is tenant-owned |
| TenantGuardProofs.Confined | apps/api/src/core/prisma/tenant-guard.extension.ts:81-98 | a guarded update, also that of an upsert, leaves every other organization's rows alone if and only if its payload names no other organization or it matches no row |
| TenantGuardProofs.PerformSame | apps/api/src/core/prisma/tenant-guard.extension.ts:60-103 | the answer to a guarded query and its effect on the organization's rows depend on those rows only |
| TenantGuardProofs.PerformOthers | apps/api/src/core/prisma/tenant-guard.extension.ts:60-103 | a guarded query changes no row of another organization |
| TenantGuardProofs.AsIfAlone | apps/api/src/core/prisma/tenant-guard.extension.ts:81-98 | a guarded query on the organization's own rows answers, and changes them, as the query itself would on a store that holds nothing else |
| TenantGuardProofs.CreatesKept | apps/api/src/core/prisma/tenant-guard.extension.ts:88-98 | rows to create keep their number, order, ids and fields, and get the organization |
| TenantGuardProofs.ExemptExact | apps/api/src/core/prisma/tenant-guard.extension.ts:60-77 | system bypass, models without the column and the seven global models pass unchanged; every other query is refused exactly without an organization |
| TenantGuardProofs.Noninterference | apps/api/src/core/prisma/tenant-guard.extension.ts:60-103 | in any run of guarded queries of many organizations each gets the answers and ends with the rows that its own queries alone would give |
| TenantGuardProofs.OthersChangeNothing | apps/api/src/core/prisma/tenant-guard.extension.ts:60-103 | a run of other organizations' queries leaves an organization's rows unchanged |
| Customers.CustomersService.Get | apps/api/src/modules/customers/customers.service.ts:166-184 | the loop of at most ten look-ups follows the merge pointers, with its two error cases |
| Customers.CustomersService.FindClash | apps/api/src/modules/customers/customers.service.ts:86-99 | whether some contact key of the input is in use |
| Customers.CustomersService.CreateCustomer | apps/api/src/modules/customers/customers.service.ts:77-164 | refused on a used or repeated key; otherwise a live customer with these contacts, the first primary unless told otherwise, and an activity |
| Customers.CustomersService.AddContactMethod | apps/api/src/modules/customers/customers.service.ts:318-345 | a key of another customer is a conflict, the customer's own changes nothing, a new primary one demotes the others of its kind |
| Customers.CustomersService.MoveContactMethods | apps/api/src/modules/customers/customers.service.ts:370-384 | in whatever order the rows come, those whose key the target has are deleted and the others moved and demoted |
| Customers.CustomersService.WriteMerge | apps/api/src/modules/customers/customers.service.ts:369-442 | the transaction, for contacts and keys read earlier: it rolls back if a listed contact is gone; otherwise contacts and all five kinds of records move, the source points at the target, and an activity is added |
| Customers.CustomersService.MergeCustomers | apps/api/src/modules/customers/customers.service.ts:363-457 | refused for equal or unresolvable ids; otherwise the two customers are read and the transaction follows |
| Customers.FiveTables | apps/api/src/modules/customers/customers.service.ts:386-405 | the five updates move every record of the source, whatever its kind |
| CustomerProofs.CreateExact | apps/api/src/modules/customers/customers.service.ts:77-164 | a customer is created exactly if its keys are unused and distinct: live, with these contacts and no others, the first primary unless told otherwise |
| CustomerProofs.AddExact | apps/api/src/modules/customers/customers.service.ts:318-345 | a contact is added exactly if nobody has its key and the customer exists, a conflict exactly if another has it; a primary one is then the only primary of its kind, and nothing else changes |
| CustomerProofs.AddRecordStored | apps/api/src/modules/customers/customers.service.ts:461-472 | a note is stored, under the id given, exactly if that leads to a live customer within nine hops |
| CustomerProofs.MergeReplies | apps/api/src/modules/customers/customers.service.ts:363-457 | a merge is refused, and changes nothing, exactly if the ids are equal or one does not resolve; of two live customers the target is handed out |
| CustomerProofs.WalkFinds | apps/api/src/modules/customers/customers.service.ts:166-184 | looking at n rows finds a customer if and only if it is the live end of a chain of fewer than n hops |
| CustomerProofs.GetFindsSurvivor | apps/api/src/modules/customers/customers.service.ts:166-184 | `get` returns the survivor if and only if it is at most 9 hops away |
| CustomerProofs.RedirectKeepsForest | apps/api/src/modules/customers/customers.service.ts:425-428 | pointing the source at the target keeps every chain ending in a live customer if and only if the target's chain does not pass the source |
| CustomerProofs.LiveMergeEnds | apps/api/src/modules/customers/customers.service.ts:425-428 | a merge of live customers lengthens by one hop exactly the chains that ended at the source |
| CustomerProofs.MergeKeepsKeys | apps/api/src/modules/customers/customers.service.ts:366-384 | a merge keeps all contact keys if and only if the two ids resolve to different customers or there are no contacts to lose |
| CustomerProofs.MergeUnitesKeys | apps/api/src/modules/customers/customers.service.ts:370-384 | after a merge of live customers the survivor has exactly the union of their keys; moved contacts are not primary, its own are unchanged |
| CustomerProofs.RunKeepsUnique | apps/api/src/modules/customers/customers.service.ts:85-99 | (kind, normalized) stays unique across customers in every run, whatever ids are merged and however merges overlap with additions and with each other |
| CustomerProofs.MergeIsRun | apps/api/src/modules/customers/customers.service.ts:363-457 | a merge that nothing interrupts is its reads followed at once by its transaction |
| CustomerProofs.CommitExact | apps/api/src/modules/customers/customers.service.ts:369-442 | a transaction that commits, on whatever it read, loses and strands nothing and leads every chain to the heir if and only if the target is live, the source is live or leads to the target, the contacts read are those of the source now, but for some of the target, and none of them has a key read as the target's |
| CustomerProofs.InheritanceExact | apps/api/src/modules/customers/customers.service.ts:318-442 | in every interleaving of creations, additions and merges, every step leaves the customers with unique keys, a forest of pointers, everything with live customers and nothing lost, if and only if every step lands right: it changes nothing, is made on a live customer, or is a merge that rolls back or commits so |
| CustomerProofs.SerialIsRight | apps/api/src/modules/customers/customers.service.ts:363-442 | merges of live customers that nothing interrupts land right |
| CustomerProofs.RunEnds | apps/api/src/modules/customers/customers.service.ts:363-442 | in every interleaving whose steps land right, each chain ends at the heir, at most one hop longer per step |
| CustomerProofs.SurvivorsInherit | apps/api/src/modules/customers/customers.service.ts:386-428 | in every interleaving whose steps land right no conversation, ticket, note, activity or memory is lost: each ends with the survivor of the customer who had it, whom `get` finds if and only if the chain between has nine hops or fewer |
| CustomerProofs.SurvivorsInheritContacts | apps/api/src/modules/customers/customers.service.ts:370-384 | the same for contact keys |
| CustomerProofs.TombstoneTarget | apps/api/src/modules/customers/customers.service.ts:386-441 | with the source live, a merge leaves everything with live customers if and only if the target is live |
| CustomerProofs.MergeBackMakesCycle | apps/api/src/modules/customers/customers.service.ts:363-428 | merging a survivor into a tombstone of its own always makes a cycle and deletes the survivor's contacts |
| CustomerProofs.StaleMergeForest | apps/api/src/modules/customers/customers.service.ts:366-428 | whatever it has read, a merge keeps the forest if and only if it rolls back or the target's chain, when it commits, does not pass the source |
| CustomerProofs.WriteKeepsUnique | apps/api/src/modules/customers/customers.service.ts:370-384 | and it keeps contact keys unique |
| CustomerProofs.OverlappingMergesCycle | apps/api/src/modules/customers/customers.service.ts:363-428 | from every state with two live customers, merging them into each other at once makes a cycle |
| CustomerProofs.LateContactExact | apps/api/src/modules/customers/customers.service.ts:370-384 | a merge of live customers that commits leaves everything with live customers if and only if its reads missed no contact of the source |
| CustomerProofs.LateContactStranded | apps/api/src/modules/customers/customers.service.ts:318-442 | from every state: a contact added to the source between the reads and the transaction stays on the tombstone |
| Pagination.RestMeaning | apps/api/src/common/pagination.ts:37-43 | of the rows after its cursor a fetch scans all but those it misses: every one if the cursor row is deleted, the first if that row is in the table but no longer in the list |
| Pagination.RestExact | apps/api/src/common/pagination.ts:38-43 | a fetch scans every later row if and only if it has no cursor, its cursor row is in the list, or no row of the list is later |
| Pagination.PageMeaning | apps/api/src/common/pagination.ts:20-35 | a page is the front of the rows scanned, as full as the limit allows, with a cursor exactly if rows are left; the cursor separates it from them |
| Pagination.RowDelivered | apps/api/src/common/pagination.ts:20-43 | the same row by row: a row present at all fetches is delivered if and only if no fetch misses it |
| Pagination.InOrderOnce | apps/api/src/common/pagination.ts:20-43 | however the list changes between fetches, rows come in order, none twice, none that was never there |
| Pagination.DeliveryExact | apps/api/src/common/pagination.ts:20-43 | of a listing followed to its end, every row present at all fetches is delivered if and only if no fetch whose cursor row was deleted has such a row after it, and no fetch whose cursor row left the list has such a row first after it |
| Pagination.NothingMissed | apps/api/src/common/pagination.ts:20-43 | in particular if no cursor row leaves the list |
| Pagination.PagesMakeTheList | apps/api/src/common/pagination.ts:20-43 | over an unchanging list the pages put together are the list |
| Pagination.DeletedCursorEndsListing | apps/api/src/common/pagination.ts:38-43 | a listing of four rows that loses two of them with the cursor row between |
| Pagination.HiddenCursorSkipsRow | apps/api/src/common/pagination.ts:38-43 | a listing that skips the row after a cursor row which has left the list |
| Conversations.Conversation.ChangeStatus | apps/api/src/modules/conversations/conversations.service.ts:274-295 | the transition check, and the time marks each new status sets or clears |
| Conversations.Conversation.Assign | apps/api/src/modules/conversations/conversations.service.ts:340-369 | a non-member is refused; otherwise assignee, marks, queue and status change together, and no assignee returns the conversation to its queue |
| Conversations.Conversation.Transfer | apps/api/src/modules/conversations/conversations.service.ts:409-431 | to a user it is an assignment; to a team or queue the assignee goes and the rest stays |
| Conversations.Conversation.Receive | apps/api/src/modules/conversations/conversations.service.ts:485-539 | a duplicate is dropped; otherwise the message is stored and counted, the first agent reply timed, and an inbound message wakes a waiting and queues a new conversation |
| ConversationProofs.EveryConversationIsSound | apps/api/src/modules/conversations/conversations.service.ts:88-539 | from creation, however reads and writes of operations interleave: queued, waiting, active, resolved and closed have their marks, closing is not before resolving, the assignee id is null exactly when the type is none, an AI assignee means aiHandled, the count is the number of stored messages, and the first response is timed exactly when an agent reply is stored, by such a reply |
| ConversationProofs.HolderExact | apps/api/src/modules/conversations/conversations.service.ts:340-431 | in every interleaving the assignee is the one named by the last write that assigned, transferred or unassigned |
| ConversationProofs.StoredExact | apps/api/src/modules/conversations/conversations.service.ts:485-539 | in every interleaving exactly the messages not known by their provider id when read are stored, in the order of the writes |
| ConversationProofs.WriteExact | apps/api/src/modules/conversations/conversations.service.ts:274-539 | the status each write leaves and the time marks, queue, team and AI agent it sets |
| ConversationProofs.WriteLeaves | apps/api/src/modules/conversations/conversations.service.ts:274-539 | and what no operation of its kind touches |
| ConversationProofs.AnswerExact | apps/api/src/modules/conversations/conversations.service.ts:274-539 | what each operation answers |
| ConversationProofs.ReplyExact | apps/api/src/modules/conversations/conversations.service.ts:490-529 | the first response is the first outbound message by a user or an AI agent |
| ConversationProofs.StartExact | apps/api/src/modules/conversations/conversations.service.ts:88-170 | a conversation starts new, in its queue, with nobody and nothing in it |
| ConversationProofs.TableExact | apps/api/src/modules/conversations/conversations.service.ts:26-34 | nothing leads back to new; closed is only reopened; resolved is reopened or closed; nothing new or queued is put on hold, nothing new is resolved; all else is legal |
| ConversationProofs.NewIsNeverReentered | apps/api/src/modules/conversations/conversations.service.ts:26-34 | in every interleaving `new` is left for good |
| ConversationProofs.TableRespected | apps/api/src/modules/conversations/conversations.service.ts:26-34 | an operation keeps to the table if and only if it does not assign or transfer a resolved or closed conversation |
| ConversationProofs.ExecIsRun | apps/api/src/modules/conversations/conversations.service.ts:274-539 | an operation that nothing interrupts is its read followed at once by its write |
| ConversationProofs.SerialIsExact | apps/api/src/modules/conversations/conversations.service.ts:490-529 | while operations do not overlap, the first response is the time of the first agent reply, and no provider id is stored twice |
| ConversationProofs.WriteKeepsOrder | apps/api/src/modules/conversations/conversations.service.ts:485-539 | a write, its read stale or not, keeps the first response first and the messages apart if and only if the message is not stored yet and a reply taken for the first finds no other |
| ConversationProofs.OrderExact | apps/api/src/modules/conversations/conversations.service.ts:485-539 | in every interleaving both hold all along the run if and only if every write lands so |
| ConversationProofs.OverlapBreaksOrder | apps/api/src/modules/conversations/conversations.service.ts:486-529 | two overlapping deliveries of one reply store it twice and keep the later time |
| ConversationProofs.WriteRespectsTable | apps/api/src/modules/conversations/conversations.service.ts:274-539 | a write, its read stale or not, keeps to the table if and only if the row, when it lands, allows the status asked for, or is neither resolved nor closed where the write assigns, transfers, or queues a conversation read as new |
| ConversationProofs.OverlapBypassesTable | apps/api/src/modules/conversations/conversations.service.ts:275-295 | an overlapping status change writes over one its check never saw |
| Agents.MaxNumber | apps/api/src/modules/agents/agents.service.ts:166-166 | an upper bound of the numbers given, and one of them or zero |
| Agents.AgentsService.NextNumber | apps/api/src/modules/agents/agents.service.ts:166-166 | the loop gives one more than the largest number among the newest twenty |
| Agents.AgentsService.CreateVersion | apps/api/src/modules/agents/agents.service.ts:165-191 | a new version under the next number, from the live or the newest version, unless the number is taken |
| Agents.AgentsService.WriteVersion | apps/api/src/modules/agents/agents.service.ts:153-191 | an unpublished draft is patched in place, otherwise a version is created |
| Agents.AgentsService.EditDraft | apps/api/src/modules/agents/agents.service.ts:153-198 | and a version created becomes the draft |
| Agents.AgentsService.PublishDraft | apps/api/src/modules/agents/agents.service.ts:206-257 | without a draft or with a failing gate nothing changes; otherwise the draft becomes published and active, and there is no draft |
| Agents.AgentsService.RollbackTo | apps/api/src/modules/agents/agents.service.ts:317-326 | the numbered version becomes active exactly if it exists and was published |
| AgentProofs.PublishExact | apps/api/src/modules/agents/agents.service.ts:206-257 | a publication takes effect exactly if it is not blocked and the draft is among the newest twenty: the draft goes live as it is, and no other version changes |
| AgentProofs.CreatedGoesLive | apps/api/src/modules/agents/agents.service.ts:64-147 | an agent starts with one draft of the content given, and that content is live once published |
| AgentProofs.RollbackExact | apps/api/src/modules/agents/agents.service.ts:317-326 | a rollback makes the numbered version active exactly if it is published, and changes nothing else |
| AgentProofs.ActiveExact | apps/api/src/modules/agents/agents.service.ts:206-326 | in every interleaving what is active is what was published or rolled back to last |
| AgentProofs.NextNumberIsFree | apps/api/src/modules/agents/agents.service.ts:166-173 | though only the newest twenty are looked at, the number given to a fork is one above all |
| AgentProofs.EditIsRun | apps/api/src/modules/agents/agents.service.ts:153-198 | an edit that nothing interrupts is its read and its two writes |
| AgentProofs.PublishIsRun | apps/api/src/modules/agents/agents.service.ts:206-257 | a publication that nothing interrupts is its read and its transaction |
| AgentProofs.RollbackIsRun | apps/api/src/modules/agents/agents.service.ts:317-326 | a rollback that nothing interrupts is its read and its write |
| AgentProofs.NumberTakenExact | apps/api/src/modules/agents/agents.service.ts:165-173 | a fork asks for a number that is taken if and only if a version was added since its read |
| AgentProofs.RunKeeps | apps/api/src/modules/agents/agents.service.ts:153-326 | in every interleaving of the reads and writes of edits, publications and rollbacks, with deaths between them: numbers are exactly 1..n, what is active is published, versions are not lost and stay published, and each fork half-way has a version of its own |
| AgentProofs.ImmutableExact | apps/api/src/modules/agents/agents.service.ts:149-163 | in every interleaving no step changes a published version if and only if no edit lands on a draft published since its read, but for patches that change nothing |
| AgentProofs.TidyExact | apps/api/src/modules/agents/agents.service.ts:153-257 | in every interleaving the draft stays the newest version, and the only unpublished one but for forks half-way, if and only if versions are added while there is no draft, become the draft while they are newest, are published while they or none are the draft, and no fork dies half-way |
| AgentProofs.SerialEditLands | apps/api/src/modules/agents/agents.service.ts:153-198 | edits that nothing interrupts do so |
| AgentProofs.SerialPublishLands | apps/api/src/modules/agents/agents.service.ts:206-257 | publications that nothing interrupts do so |
| AgentProofs.OneUnpublished | apps/api/src/modules/agents/agents.service.ts:153-326 | from creation, in every interleaving that does so, at most one version is unpublished whenever no fork is half-way: the draft, the newest of all |
| AgentProofs.DyingEditExact | apps/api/src/modules/agents/agents.service.ts:168-196 | a death between the two writes of an edit breaks that if and only if the edit forks |
| AgentProofs.OverlappingForks | apps/api/src/modules/agents/agents.service.ts:168-196 | from every tidy state without a draft: two forks that overlap leave two unpublished versions, the older one the draft |
| AgentProofs.PublishedNeverChanges | apps/api/src/modules/agents/agents.service.ts:149-257 | from creation, a version has, ever after its publication, the content it had then, in every continuation in which no edit lands on a draft published since its read |
| AgentProofs.ForkOfLive | apps/api/src/modules/agents/agents.service.ts:137-147 | a fork starts from the live version if and only if that is among the newest twenty or the newest one gives the same |
| AgentProofs.OldLiveIsNotForked | apps/api/src/modules/agents/agents.service.ts:137-165 | with the first of twenty-one versions live, editing forks the last |
| AgentProofs.EditAfterPublish | apps/api/src/modules/agents/agents.service.ts:154-163 | an edit whose read is stale leaves published versions alone if and only if its draft was not published meanwhile or the patch changes nothing |

## Left out

- Time zones and daylight saving: the calendar has a fixed offset and 24-hour days; rules come as minutes, not as HH:mm text.
- OpeningProofs.NextOpeningByDay: takes rules that open before midnight; for the others `NextOpeningExact` speaks of one instant at a time.
- Schemas.ZodToOpenApi: does not model native enums, which the repository's schemas do not use, and `description`, which constrains nothing.
- RateLimit.Limiter.CanActivate: composes increment and expire without interference; what comes between them is in the runs of `RateLimitProofs`.
- WorkingTimeProofs.AddThenElapsed and AddComposes: for ordered rules inside the day, as `AddExact` requires anyway.
- SchemaLimits.TrimExact: no exact condition for a format that tolerates blanks at its ends, where trimming before it may or may not matter.
- Requests other than POST, and requests outside an organization, which the interceptor lets through.
- Validator constructs: coercion and preprocessing; string checks other than length, format and trim, and types the translation does not know, are arbitrary tests here.
- The response envelope of a replayed request; only the payload is kept.
- SDK retries of PATCH, PUT and DELETE as at-most-once: the interceptor honours keys on POST only.
- Back-off delays and timeouts of the SDK: any outcome may come at any time.
- Password hashing, JWT, TOTP and recovery codes: tokens are fresh, hashing is injective, and a second factor is only a source of failed logins.
- The revocation watermark for access tokens.
- Overlapping login attempts: the failure count is read and written by one attempt at a time.
- Several tabs or browsers of one user: the client is the user's only one while the run lasts.
- Whole-second rounding of Redis TTL, and the reset header's value beyond its source.
- Which listeners an emitted event reaches; only that it was emitted.
- Raw queries, relation filters and includes, and operations the guard knows neither as constrainable nor as creating.
- The order, page, count or aggregate a read computes: an arbitrary function of the rows seen.
- Contact normalization, profile fields that a merge fills in, removal of contact methods, and customer deletion.
- Conversation counters `version`, and the writers of conversation rows in the routing, calls and SLA services.
- Participants, timeline events, audit records and published events of conversations, customers and agents.
- The order in which a page's query breaks ties, and `parseSort`.
- Pagination.InOrderOnce and the other listings: a row keeps its place; `lastMessageAt` and `updatedAt`, by which lists are sorted, can change between fetches.
- The two `get` calls of a merge as separate reads: they are one event, and what the transaction needs of them is stated of the contacts and keys read.
- Validation of workflow graphs, evaluation gates and the four-eyes rule: together they are one parameter that may block a publication.
- Deletion of agents, billing, analytics, the AI gateway, automation rules, backups and access review.
