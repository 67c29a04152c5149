# Kelin: verified models of the server's core rules

Kelin is a companion app; its server keeps a spirit for each user. This project models, in Dafny, the
parts of the server where several steps have to add up over time, and proves what they promise. Each core
keeps the form its source has: tables and in-memory objects that are updated in place are classes whose
methods are proved against a functional specification; parsers, diffs and rules made of expressions are
functions; the laws are lemmas about the specifications, over every run, document, byte string or clock.

- **Quota** (`quota.dfy`, `quota_runs.dfy`): the daily usage table with one row per user, local date and
  capability. At most one row is open at a time, counters are conserved, and hopping between time zones is
  bounded and reaches its bound.
- **Reservations** (`reservations.dfy`, `quota_service.dfy`, `service_runs.dfy`, `service_grants.dfy`): holds on
  that table, their expiry by a worker, exactly when holds and counters stay in step, and over runs that mix all
  of it exactly which calls and requests are granted.
- **Contract checker** (`json.dfy`, `breaking.dfy`, `breaking_laws.dfy`, `breaking_report.dfy`,
  `schema_meaning.dfy`, `schema_unions.dfy`, `schema_soundness.dfy`, `document_meaning.dfy`,
  `schema_gaps.dfy`, `schema_findings.dfy`, `document_findings.dfy`): the report holds a finding exactly when
  the documents differ as it says; a clean comparison of two OpenAPI documents is a preorder; under one guard it
  keeps the meaning of responses, under another it lets requests stay valid; and the exact conditions under
  which an added property, a narrowed oneOf member or a changed literal breaks either.
- **Spirit state** (`spirit_state.dfy`): lazy settling at bootstrap against scheduler ticks.
- **Circuit breaker and call loop** (`circuits.dfy`, `circuit_runs.dfy`, `circuit_safety.dfy`,
  `call_loop.dfy`): one circuit per capability, and the attempts around a provider call.
- **Audio containers** (`boxes.dfy`, `box_codings.dfy`, `speech.dfy`, `rounding.dfy`): the box walker and printer, the brands
  and duration of an M4A upload (ISO/IEC 14496-12, sections 4.2, 4.3 and 8.2.2), and rounding.
- **Cursors and paging** (`base64url.dfy`, `cursor.dfy`, `keyset.dfy`, `memory_table.dfy`,
  `message_table.dfy`, `paging_tokens.dfy`): from the base64url characters of a token (RFC 4648) to whole
  walks over a table that other requests change.
- **Pacts** (`pact.dfy`) and **quiet hours** (`quiet_hours.dfy`): the drift of a repeatedly rounded average
  and the least instant outside a daily interval.
- **Growth** (`growth.dfy`): facts that are delivered again and settle once.
- **Account deletion** (`sweep.dfy`, `account_owners.dfy`, `account_delete.dfy`): the page-wise sweep over an
  owner's objects, and whose objects those are.

Verify the project with `dafny verify dfyconfig.toml`.

## Conventions

Instants are whole microseconds, clocks in the circuit breaker are reals. A repository call is one atomic
step on its table; a raised error rolls its transaction back. Python integers are unbounded and so are
these; the fixed widths of the container format are explicit. Floats (error rate, backoff, averages) are
exact quotients or reals: for the small integers they are applied to, Python's correctly rounded division
and rounding half to even give the same integer. The clock, the random draws, the network's answers, the
MAC and the JSON text of a cursor are parameters.

## Where code and documentation disagree

- The header of `app/domain/quota.py` says that a time zone change cannot mint a fresh day. While a row is
  open that is so; at the moment it closes another zone does get a fresh one (`QuotaRuns.FreshDayIff`,
  `QuotaRuns.HoppingReachesTheBound`, `ServiceRuns.ReservingReachesTheBound`).
- A hold that is committed between the worker's claim and its release is released once more
  (`Reservations.CommitBetweenClaimAndExpiry`).
- `docs/p15-integration.md` says that a skip lowers completeness, and in the same breath that the first
  one takes it from 0 to 50 (`Pact.SkipLowersIff`). An answer does not count earlier skips in its average
  while a skip counts both (`Pact.AnswerAveragesAllIff`).
- A lost spirit leaves that status without a recall when its idle time is between 18 and 72 hours
  (`SpiritState.LostIsLeftInTheMiddleBand`).
- The checker is there to report breaking changes. It never flags an optional property that is
  added: that is harmless to responses, or to requests, exactly under `SchemaGaps.AddedIff`. Nor does it
  flag a oneOf member that is narrowed, which admits and refuses values exactly under
  `SchemaGaps.OneOfNarrowedIff`. Nor a changed `const`, as which a literal such as the kind of a feed item
  (`app/schemas/feed.py`) is exported: that is harmless exactly under `SchemaGaps.ConstChangedIff`.
- `app/domain/cursor.py` promises `InvalidCursor` for a malformed or tampered token; the decoder skips
  characters outside its alphabet, so an altered text can be the same token (`Cursors.AnotherTokenDecodes`).

## Model

| member | source | states |
|---|---|---|
| `Quota.ResolveWindow` | app/repositories/quota.py:61-79 | an open row of the user and capability fixes the window, in its own zone and the latest date when there are several; only without one does the caller's zone decide |
| `Quota.DailyUsage.ResolveUsageWindow` | app/repositories/quota.py:61-79 | the window as specified, reading the table and changing nothing |
| `Quota.DailyUsage.EnsureUsageRow` | app/repositories/quota.py:82-106 | an insert that loses to an existing row, open or closed, and leaves it alone |
| `Quota.DailyUsage.Consume` | app/repositories/quota.py:148-194 | one step of the specification on the table; when that step charges is stated by ServiceGrants.ConsumingIff |
| `Quota.DailyUsage.ApplyReservedDelta` | app/repositories/quota.py:197-241 | reserve, release and commit under their guards; anything else is refused and changes nothing |
| `QuotaRuns.LedgerConserved` | app/repositories/quota.py:148-241 | over every run of consume, reserve, release and commit each row keeps 0 <= used, 0 <= reserved, used + reserved <= limit, used = consumed + committed and reserved = reserved - released - committed |
| `QuotaRuns.RefusalChangesNoCounter` | app/repositories/quota.py:148-241 | a refused or raising step changes no counter |
| `QuotaRuns.StepKeepsOneOpen` | app/repositories/quota.py:61-106 | a repository call at a later time never leaves two open rows where there was at most one |
| `QuotaRuns.FreshDayIff` | app/domain/quota.py:1-6 | when the promise that a zone change cannot mint a fresh day holds: a row is added if and only if none is open and the zone's date has none; while one is open the zone changes nothing |
| `QuotaRuns.ChargeDateInRange` | app/repositories/quota.py:148-194 | every charge lands between the local dates of UTC-12 and UTC+14 at that instant |
| `QuotaRuns.HoppingReachesTheBound` | app/domain/quota.py:1-6 | three consuming calls within two hours from three zones get three whole limits, which is all that ServiceRuns.HoppingIsBounded allows: the header's promise fails once a row has closed |
| `QuotaRuns.FixedZoneKeepsLocalDate` | app/repositories/quota.py:61-79 | a user who never changes zone is always charged on the local date of that zone |
| `Reservations.CurrentIsCovered` | app/services/quota.py:259-288 | a commit of a hold that is still live is never refused |
| `Reservations.ReserveKeepsBacked` | app/services/quota.py:89-256 | reserving keeps every row's reserved counter equal to the live holds on it, reopening and retiring stale holds included |
| `Reservations.ReserveIsIdempotent` | app/services/quota.py:105-138 | one reservation per source: asking again while it is held returns the same one and changes neither table |
| `Reservations.ClaimKeepsBacked` | app/repositories/quota.py:365-395 | claiming due holds moves no units and makes no ticket stale |
| `Reservations.CommitKeepsBackedIff` | app/services/quota.py:259-288 | a commit keeps counters and holds in step if and only if the hold is still live as remembered or the row has too little reserved, so that the commit raises |
| `Reservations.ExpireKeepsBackedIff` | app/services/quota.py:358-388 | a release keeps them in step if and only if the hold is still live, or it is gone and the row has too little reserved |
| `Reservations.RunKeepsBackedIff` | app/services/quota.py:89-388 | over any run of reserving, committing, releasing, claiming and expiring, counters and holds agree after every step if and only if every step met its guard |
| `Reservations.NothingLeaks` | app/services/quota.py:89-388 | once no hold is live, no row has anything reserved |
| `Reservations.CommitBetweenClaimAndExpiry` | app/services/quota.py:358-388 | the guard can fail in use: a commit between the worker's claim and its release frees the units of another hold, whose own commit then raises |
| `ServiceRuns.StepsAreTheServices` | app/services/quota.py:44-388 | the steps of a mixed run change the tables exactly as the services do; a refused consumption keeps the row it opened only where its caller handles the error |
| `ServiceRuns.AtMostOneOpenRow` | app/repositories/quota.py:61-106 | over every run that mixes consuming, reserving, committing, releasing and the worker, whatever zones are sent, at most one row per user and capability is open |
| `ServiceRuns.RunConserves` | app/services/quota.py:44-388 | over every such run each row holds exactly the units consumed or committed on it and those still reserved, within its limit |
| `ServiceRuns.IssuesAreDated` | app/services/quota.py:89-288 | every ticket and every unit is booked on a date that some zone shows at the instant of issue |
| `ServiceRuns.HoppingIsBounded` | app/services/quota.py:44-288 | whatever zones are sent, what is consumed in t0..t1 and what is committed on tickets issued then is at most one limit for each date that some zone shows in that time |
| `ServiceRuns.ReservingReachesTheBound` | app/services/quota.py:89-288 | for every capability three reservations, each committed, within two hours and from three zones get three whole limits |
| `ServiceGrants.ConsumingIff` | app/repositories/quota.py:148-194 | after any mixed run a valid call is refused if and only if the units that the log has on the row of its window, consumed or still reserved, and its amount exceed the limit named by the step that opened the row |
| `ServiceGrants.FirstUnitsAreGranted` | app/repositories/quota.py:148-194 | so of single units asked for in one open window, from whatever zones, exactly the first are granted, as many as the limit has left |
| `ServiceGrants.OpenRowIsWindow` | app/repositories/quota.py:61-79 | while the zone of a row shows its date or an earlier one, that row is the window of every call of its user and capability |
| `ServiceGrants.ReservingIff` | app/services/quota.py:89-256 | a valid request that is no replay gets a hold if and only if the units on its row by the log, after what an expired hold of its source gives back, and its amount are within the limit the row was opened with; otherwise the limit is exceeded and nothing changes |
| `ServiceGrants.ReplayedIsAnswered` | app/services/quota.py:105-138 | a request whose source has a committed or unexpired hold is answered with it and changes nothing |
| `ServiceGrants.CommittingIff` | app/services/quota.py:259-288 | a commit settles if and only if by the log its row still has as many units reserved |
| `ServiceGrants.SourceIsFreed` | app/services/quota.py:291-388 | a released or expired hold frees its source for a new one, a committed one does not |
| `QuotaService.PickedExact` | app/repositories/quota.py:365-384 | the claim picks distinct due holds that are not locked, longest expired first, and leaves a due one out only when the limit is used up |
| `QuotaService.Service.MarkReservation` | app/repositories/quota.py:346-362 | a status is only changed from held or expiring |
| `QuotaService.Service.Reserve` | app/services/quota.py:89-256 | the statements of reserve, undone when it raises, the exceeded limit included, are one step of the specification |
| `QuotaService.Service.Commit` | app/services/quota.py:259-288 | likewise for commit: it raises when nothing was reserved |
| `QuotaService.Service.Release` | app/services/quota.py:291-319 | likewise for release: nothing for a settled ticket |
| `QuotaService.Service.ClaimExpired` | app/repositories/quota.py:365-395 | tickets for exactly the picked holds, each once and current, and every other hold as it was |
| `QuotaService.Service.ExpireClaimed` | app/services/quota.py:370-387 | the worker's release and mark of one claimed hold are one step of the specification |
| `Json.EqualReflexive` | app/contracts/breaking.py:330-379 | Python equality of JSON values, where 1 equals 1.0 and true, is reflexive |
| `Json.EqualTransitive` | app/contracts/breaking.py:330-379 | and transitive, which chained comparisons of references and enum values rest on |
| `Json.EqualAtKeys` | app/contracts/breaking.py:230-245 | equal dictionaries have the same keys and equal values at each |
| `Breaking.SchemaEmptyIff` | app/contracts/breaking.py:215-327 | the recursive diff of two schemas is empty if and only if the schemas stand in the compatibility relation, which is defined without findings |
| `Breaking.ReportEmptyIff` | app/contracts/breaking.py:39-212 | the same for whole documents, through paths, methods, response codes, bodies and components |
| `BreakingLaws.CompatibleReflexive` | app/contracts/breaking.py:215-379 | every schema is compatible with itself |
| `BreakingLaws.CompatibleTransitive` | app/contracts/breaking.py:215-379 | compatibility of schemas chains, at any nesting |
| `BreakingLaws.ReportReflexive` | app/contracts/breaking.py:39-51 | a document compared with itself reports nothing |
| `BreakingLaws.ReportTransitive` | app/contracts/breaking.py:39-51 | two clean comparisons in a row make a clean comparison of the ends |
| `BreakingReport.Report.CompareSchema` | app/contracts/breaking.py:215-327 | the comparison appends to the shared list exactly the findings of the specification, in order; SchemaDifferences.SchemaFindingsExact says which those are |
| `BreakingReport.Report.ComparePaths` | app/contracts/breaking.py:72-91 | likewise for the paths section |
| `BreakingReport.FindBreakingChanges` | app/contracts/breaking.py:39-51 | the whole run gives the specified findings, and none if and only if the documents are compatible; DocumentDifferences.ReportIsExact says what each stands for |
| `SchemaDifferences.SchemaFindingsExact` | app/contracts/breaking.py:215-379 | a finding is in the comparison of two schemas if and only if, at the place it names, the schemas differ as it says: fields, required names, enum members, types, lengths of lists, at any nesting |
| `SchemaDifferences.MissingOnce` | app/contracts/breaking.py:256-275 | a required name that is listed twice is reported once |
| `DocumentDifferences.ReportIsExact` | app/contracts/breaking.py:39-379 | a finding is in the report if and only if the documents differ at its location as it says: paths, methods, status codes, components, and the schemas at every place that both have |
| `DocumentDifferences.BodySchemaIs` | app/contracts/breaking.py:143-154 | the schema of a body is that of JSON content, or that of the first medium that has one |
| `DocumentDifferences.BodiesAre` | app/contracts/breaking.py:131-140 | the compared schema of a request is that of the content of its body, that of a response of its content |
| `Json.ReadsDecimal` | app/contracts/breaking.py:330-348 | the index in a location is the decimal text of the position: reading it gives the position back |
| `SchemaMeaning.TypesDecide` | app/contracts/breaking.py:350-362 | the types a schema is read to have: the declared one or ones, or else what properties and items suggest |
| `SchemaSoundness.SchemaSound` | app/contracts/breaking.py:215-379 | for valid schemas under the guard of the wanted way: what the new schema accepts the old one accepted, or what the old accepted the new one accepts. Constants are there where values arrive from; an added property must go with the old rule for extra ones; oneOf members must compare clean both ways, or no two of them may share a value where values arrive. When all compares clean both ways, they accept the same values |
| `DocumentMeaning.ResponsesKeepTheirMeaning` | app/contracts/breaking.py:156-212 | a clean report keeps every response: the code is still there, and each answer valid under the new document was valid under the old; the guard concerns only the components the response can reach |
| `DocumentMeaning.RequestsStayValid` | app/contracts/breaking.py:118-140 | the same one clean report lets every request body that was valid stay valid, under the guard for that way: an added property must accept all that the old rule for extra ones did |
| `DocumentMeaning.BothWays` | app/contracts/breaking.py:215-379 | valid schemas that compare clean both ways, with the same constants, accept the same values, closed schemas, oneOf and references included |
| `DocumentMeaning.RequestsKeepTheirMeaning` | app/contracts/breaking.py:118-140 | so a request body means the same in both documents when the report is clean in both directions and no constant has changed |
| `SchemaGaps.AddedIff` | app/contracts/breaking.py:277-318 | a property added beside any rule for extra ones is never reported; responses keep their meaning if and only if the rule accepted all that the property's schema accepts, and requests stay valid if and only if the schema accepts all that the rule accepted |
| `SchemaGaps.ClosedAddedIff` | app/contracts/breaking.py:277-318 | where extra properties are forbidden, an added one keeps responses if and only if its schema accepts no value; requests stay valid always |
| `SchemaGaps.OpenAddedIff` | app/contracts/breaking.py:277-318 | where extra properties are free, an added one keeps responses always; requests stay valid if and only if its schema accepts every value |
| `SchemaGaps.ClosedSchemaGap` | app/contracts/breaking.py:277-318 | so there is a value that an optional property added to a closed schema admits, with a clean report |
| `SchemaUnions.ApartNeverBoth` | app/contracts/breaking.py:330-379 | schemas with disjoint types, or with different literal or listed texts of a required property, accept no value in common |
| `SchemaUnions.OneMoves` | app/contracts/breaking.py:318-348 | a oneOf without shared values carries over when each member does, also where the members are references |
| `SchemaGaps.OneOfNarrowedIff` | app/contracts/breaking.py:318-348 | a oneOf with one member narrowed, at any depth: a value becomes valid if and only if the member drops it and exactly one other claims it, and stops being valid if and only if the member drops it and no other claims it; the report is clean when the members compare clean |
| `SchemaGaps.OneOfGap` | app/contracts/breaking.py:318-348 | so a oneOf whose first member is narrowed compares clean and accepts a value that two members had claimed |
| `SchemaGaps.ConstChangedIff` | app/contracts/breaking.py:215-327 | a constant that is added, changed or removed is never reported; responses keep their meaning if and only if the old constant lets through all that the schema and the new one do, requests the other way around |
| `SchemaGaps.LiteralChangedIff` | app/contracts/breaking.py:215-327 | so a literal text that gives way to another keeps responses if and only if the rest of the schema refuses the new text, and requests if and only if it refuses the old one |
| `SchemaGaps.KindGap` | app/contracts/breaking.py:215-237 | what is no schema can compare equal to one: zero equals false |
| `SchemaGaps.RequestGap` | app/contracts/breaking.py:118-140 | so there is a request that a free name turned into a property refuses, with a clean report |
| `SchemaGaps.EmptyListGap` | app/contracts/breaking.py:330-379 | an empty enum, anyOf or oneOf compares like none, though nothing satisfies it |
| `SpiritState.PathIndependentIff` | app/domain/spirit_state.py:67-149 | lazy and eager settling agree for every sequence of ticks if and only if the row is settleable, a condition on its fields alone |
| `SpiritState.SettleLeavesWellFormed` | app/domain/spirit_state.py:79-149 | every settle of any row leaves at most one until, and none on a lost row, and such rows are settleable |
| `SpiritState.TicksAfterSettleAgree` | app/domain/spirit_state.py:79-149 | after one settle of any row at all, later ticks end like the last of them alone |
| `SpiritState.LostByIdlingStaysLost` | app/domain/spirit_state.py:95-101 | a spirit found idle for 72 hours stays lost over all later ticks |
| `SpiritState.LostIsLeftInTheMiddleBand` | app/domain/spirit_state.py:100-128 | lost is not absorbing: a lost row leaves it if and only if its idle time is between 18 and 72 hours |
| `SpiritState.TicksDecide` | app/domain/spirit_state.py:79-149 | after any ordered ticks of a settleable row its status, untils and flags are those its fields and the last tick decide, status by status with 18 and 72 hours; nothing else changes |
| `SpiritState.IdlingIsNeverHome` | app/domain/spirit_state.py:103-120 | over all ticks between 18 and 72 hours of idling any row is away exactly when visits are on and no study task is due, and otherwise studying, so never home |
| `Circuits.CapabilityState.Prune` | app/providers/resilience.py:98-101 | old samples are dropped from the front, the rest kept in order |
| `Circuits.CapabilityState.FailureRate` | app/providers/resilience.py:104-108 | the loop computes the share of failures, zero without samples |
| `Circuits.CapabilityCircuits.Allow` | app/providers/resilience.py:62-73 | the capability's circuit makes one step of the specification and no other circuit changes |
| `Circuits.CapabilityCircuits.Record` | app/providers/resilience.py:75-91 | the same for recording an outcome, late ones included |
| `Circuits.CapabilityCircuits.IsOpen` | app/providers/resilience.py:93-96 | open is a time set and not reached, and asking changes nothing |
| `CircuitRuns.SamplesAreRecentHistory` | app/providers/resilience.py:62-101 | after every call the pruned deque equals the full record cut to the window |
| `CircuitRuns.FailuresAreCounted` | app/providers/resilience.py:104-108 | the failures are the samples that are not ok |
| `CircuitRuns.OpensIff` | app/providers/resilience.py:75-91 | an outcome told to a closed circuit opens it if and only if it is a failure, the recent record is long enough and more than the error rate of it failed |
| `CircuitSafety.RunSane` | app/providers/resilience.py:62-91 | with one half-open slot, at most one probe is out at any time, only after the opening time, over every run |
| `CircuitSafety.OpenUntilMeansIt` | app/providers/resilience.py:62-91 | while the opening time runs no call is granted and that time never moves back, whatever late outcomes arrive |
| `CircuitSafety.ClosesIff` | app/providers/resilience.py:75-91 | for every configuration an open circuit is closed by a step if and only if the step tells a success while a probe is out |
| `CircuitRuns.GrantedIff` | app/providers/resilience.py:62-73 | after any run a call is let through if and only if the circuit is closed, or its time is over and a slot is free, and only then takes a slot |
| `CircuitRuns.OutcomeDecides` | app/providers/resilience.py:75-91 | told while a probe is out, a success closes the circuit and frees all slots, a failure opens it for the full time and frees one |
| `CircuitRuns.OutcomeWithoutProbe` | app/providers/resilience.py:75-91 | told while no probe is out, late outcomes of an open circuit included, an outcome opens the circuit for the full time if and only if it brings enough recent failures |
| `CircuitRuns.StaysClosedIff` | app/providers/resilience.py:62-91 | a closed circuit stays closed over a run if and only if the recent record never has enough failures |
| `CircuitRuns.GrantedAfterProbe` | app/providers/resilience.py:62-91 | after a successful probe every call is granted until failures open the circuit again, for every configuration |
| `CircuitSafety.StrictIff` | app/providers/resilience.py:44-91 | for every configuration whose window reaches back, no call is granted within the opening time of any run if and only if at most one probe slot is configured, or nothing is held open, or no error rate can be exceeded |
| `CircuitSafety.StrictIffOneProbe` | app/providers/resilience.py:44-91 | with the default settings this comes down to the one slot |
| `CircuitSafety.SilentProbeBlocks` | app/providers/resilience.py:62-73 | a probe whose outcome is never told blocks the capability for good |
| `CallLoop.BackoffLeavesBudget` | app/providers/resilience.py:111-131 | if the retry check passes with one random draw, then after a sleep by any other draw more time is left than the check's own draw |
| `CallLoop.MarginIsTight` | app/providers/resilience.py:117-131 | 0.05 seconds is the least margin that is safe for every pair of draws |
| `CallLoop.PlayIsLawful` | app/integrations/bailian.py:330-385 | the circuit is asked and told in this order and at these times; a second attempt is made exactly when the first may be retried, the circuit grants it and attempt and sleep left time, never for search; each outcome has its exact cause; every grant is recorded once, except if and only if the call leaks: a granted attempt raises what nobody handles, or the granted retry comes after the deadline |
| `CallLoop.SecondAttemptIff` | app/integrations/bailian.py:341-385 | the second attempt spelled out: the circuit grants twice, the failure is of connection, rate limit or server, it is no search, and the time left covers delay and margin before and after the sleep |
| `CallLoop.CompleteJson` | app/integrations/bailian.py:330-385 | the loop makes exactly that lawful call on its capability's circuit and leaves every other circuit alone |
| `CallLoop.PunctualCallsDoNotLeak` | app/integrations/bailian.py:341-385 | handled exceptions and a sleep that overshoots by no more than the check's draw cannot leak |
| `CallLoop.EscapeLeaks` | app/integrations/bailian.py:346-360 | after two failures opened the circuit, an exception that escapes during the probe leaks it, and every later call is refused until something is told |
| `CallLoop.OversleepLeaks` | app/integrations/bailian.py:341-376 | a connection error and a sleep that is half a minute late leak a grant |
| `CallLoop.LeakedProbeBlocks` | app/providers/resilience.py:62-73 | after any history, when the grant that a call leaks was a probe, no later call is granted until something is told |
| `Rounding.RoundingIsUnique` | app/domain/pact.py:376 | rounding half to even is the only integer within half of the quotient with that tie rule |
| `Bytes.FromToBytes` | app/domain/speech.py:311-315 | reading a big-endian number back gives the number that was written |
| `Bytes.ToFromBytes` | app/domain/speech.py:364-386 | writing a number that was read gives its bytes |
| `Boxes.IterBoxes` | app/domain/speech.py:364-390 | the loop gives the specified spans or the same first error, for 32-bit, 64-bit and to-end sizes (ISO/IEC 14496-12, section 4.2) |
| `Boxes.AcceptedIsTiled` | app/domain/speech.py:364-390 | on any accepted bytes the boxes follow one another without gaps within the range and leave less than a header |
| `Boxes.TiledInside` | app/domain/speech.py:364-390 | so every span lies inside the given bounds |
| `Boxes.WalkPrinted` | app/domain/speech.py:311-315 | walking the printed boxes gives exactly their names and spans, wherever in the data they lie |
| `Boxes.LayoutPayload` | app/domain/speech.py:311-315 | and each span holds the payload that was printed |
| `Boxes.PrintWalked` | app/domain/speech.py:364-390 | printing what was read from a range of plain boxes gives its bytes back |
| `Boxes.PrintedIffPlain` | app/domain/speech.py:311-390 | on any accepted range, printing what was read succeeds and gives the bytes back if and only if every size is plain and nothing is left over |
| `BoxCodings.AcceptedIff` | app/domain/speech.py:364-390 | a range is accepted with given spans if and only if it was written as boxes with sizes of four or eight bytes, the last perhaps open to the end, with less than a header left over, and the spans are where they were written |
| `BoxCodings.WalkWritten` | app/domain/speech.py:364-390 | whatever mixture of codings is written, the walker finds every box at its place |
| `Speech.FtypBrands` | app/domain/speech.py:318-330 | major brand and compatible brands of the first ftyp box, skipping the minor version |
| `Speech.M4aFixtureBytes` | app/domain/speech.py:292-315 | the fixture written field by field into a buffer is the printed ftyp, moov and mdat boxes, or the overflow error |
| `Speech.DurationLoss` | app/domain/speech.py:292-361 | with a timescale above 500 the duration read back is d or d - 1, and d if and only if rounding to units did not go down; always d at 1000 |
| `Speech.FixtureInspected` | app/domain/speech.py:87-106 | the inspector accepts the fixture with that duration and its three brands, whatever the padding, or names the length limit it breaks |
| `Base64Url.DecodeEncode` | app/domain/cursor.py:220-222 | decoding the unpadded encoding gives the data back, for every length (RFC 4648, sections 3.2 and 5) |
| `Base64Url.OtherSpellings` | app/domain/cursor.py:220-222 | when the last group is not full, sixteen or four texts decode to the same data |
| `Cursors.RoundTripIff` | app/domain/cursor.py:140-207 | a token decodes to its cursor if and only if the MAC under the secret, the filter and the order of position and snapshot agree, and is refused otherwise |
| `Cursors.DecodesIff` | app/domain/cursor.py:159-207 | whatever body a token carries, it decodes if and only if its MAC is that of the body, which is not empty and parses to a cursor of this version, filter and order |
| `Cursors.KindsDoNotMix` | app/domain/cursor.py:68-137 | a token of one kind of list is refused by the decoders of all others |
| `Base64Url.FillerIgnored` | app/domain/cursor.py:220-222 | characters outside the alphabet, in fours, may stand before any text without changing what it decodes to |
| `Cursors.AnotherTokenDecodes` | app/domain/cursor.py:159-222 | tokens are not unique: for every cursor that decodes, a different token decodes to it |
| `Cursors.AnotherLastCharacterDecodes` | app/domain/cursor.py:159-222 | when body and MAC do not fill the last group, one that differs in its last character only |
| `Keyset.SortedIsUnique` | app/repositories/memory.py:30-34 | the ordered list of a table is the only strictly descending list of its rows |
| `Keyset.PageExact` | app/services/memory.py:89-121 | a page is exactly the listable rows between its cursor and the next one |
| `Keyset.PagesExact` | app/services/memory.py:89-121 | the same for every page of a walk over a table that changes in between |
| `Keyset.WalkDescends` | app/repositories/memory.py:113-141 | over all pages the keys strictly descend, so nothing repeats, for any changes in between |
| `Keyset.WalkComplete` | app/repositories/memory.py:113-141 | a finished walk contains every row that was listable at each page |
| `Keyset.WalkSound` | app/repositories/memory.py:113-141 | and only rows that were listable when a page was read |
| `Keyset.FixedTable` | app/services/memory.py:89-121 | on a fixed table the walk ends with the page that takes in the last row, not earlier or later, and gives the whole sorted list |
| `MemoryTable.Memories.CorrectActive` | app/repositories/memory.py:212-239 | only an active memory of the named version is corrected; otherwise nothing changes |
| `MemoryTable.Memories.SealActive` | app/repositories/memory.py:242-267 | the same for sealing |
| `MemoryTable.Memories.DeleteCurrent` | app/repositories/memory.py:270-295 | the same for deleting an active or sealed memory |
| `MemoryTable.Memories.ClearUndeleted` | app/repositories/memory.py:298-310 | every undeleted memory of the spirit is deleted, counted, and no other is touched |
| `MemoryTable.Memories.ListActiveKeyset` | app/repositories/memory.py:113-141 | the clauses built step by step select the first rows of the sorted listing beyond the cursor; half a cursor counts as none |
| `MemoryTable.Memories.ListDeletedTombstones` | app/repositories/memory.py:144-165 | the hundred latest deletions up to the snapshot, latest first |
| `MemoryPaging.RunContinues` | app/repositories/memory.py:212-310 | over any run of changes a memory keeps its identity and age, its status only moves on, its version grows with every change |
| `MemoryPaging.RunTells` | app/repositories/memory.py:212-310 | over any run a memory has the summary of the last correction that took effect, one version for each change that did, and the status and times of its sealing and deletion |
| `MemoryPaging.ExactlyTheFirst` | app/repositories/memory.py:212-295 | of any requests that name the current version of an active memory exactly the first takes effect |
| `MemoryPaging.OneChangePerVersion` | app/repositories/memory.py:212-295 | of all requests that name the same version of a memory, at most one takes effect, however many changes lie between |
| `MemoryPaging.EveryLastingMemoryOnce` | app/repositories/memory.py:113-141 | with inserts, corrections, seals, deletes and clears between the pages, a memory present at the first and listable at the last page is listed exactly once, and none twice |
| `MemoryPaging.ListedWasActive` | app/repositories/memory.py:16-34 | what a page shows was an active memory of the asked spirit and kinds, not younger than the snapshot |
| `MemoryPaging.MissingIff` | app/repositories/memory.py:16-34 | a memory is never both listed and a tombstone, and is neither exactly when it was deleted after the snapshot (sealed ones aside) |
| `MessageTable.Messages.ListKeyset` | app/repositories/messages.py:58-79 | the first visible messages beyond the cursor, never a system message |
| `MessageTable.HistoryIsComplete` | app/repositories/messages.py:13-23 | paging while messages arrive loses none that was there at the first page, repeats none, comes newest first and shows only visible messages of the spirit |
| `PagingTokens.FollowIsWalk` | app/services/memory.py:53-126 | a client that sends back each token is never refused, stays on the first request's snapshot and gets exactly the pages of the walk |
| `Pact.ScoreAnswerText` | app/domain/pact.py:356-369 | the score accumulated over the stripped text is the specified one, between 50 and 100; full marks if and only if it is long enough, has a digit and a connective |
| `Pact.MoreTextNeverLowers` | app/domain/pact.py:356-369 | writing more before or after an answer never lowers its score |
| `Pact.SessionScore` | app/domain/pact.py:372-376 | the rounded average of a session with answers is never below 50 |
| `Pact.SessionScoreIsMean` | app/domain/pact.py:372-376 | that average is the integer nearest to the mean of all the answers' scores, ties to even, in whatever order they stand |
| `Pact.CompletenessWithin` | app/domain/pact.py:389-399 | over a whole pact completeness stays between the least and the greatest points given, skips counting 50 |
| `Pact.CompleteRule` | app/domain/pact.py:402-406 | five or more sessions that all score at least 70 meet the rule for completion, and a pact with no points above 69 does not |
| `Pact.DriftWithin` | app/domain/pact.py:389-399 | for answers and skips in any order, completeness times the number of sessions is within the sum of points by half a step of rounding per session, and by the farthest move of an answer for each earlier session it leaves out |
| `Pact.OrderedSlack` | app/domain/pact.py:389-399 | with the answers before the skips that slack is exactly k*k/4 |
| `Pact.DriftIsBounded` | app/domain/pact.py:389-399 | so k sessions with the answers first drift at most k*k/4 points in total: less than two points of average after seven |
| `Pact.DriftIsReached` | app/domain/pact.py:389-399 | the bound is met for every number of sessions up to 200 |
| `Pact.AnswerForgetsSkips` | app/services/pact.py:669-673 | after any number of skips alone, the first answer's score replaces the average, because an answer is weighed against answered sessions only |
| `Pact.AnswerAveragesAllIff` | app/services/pact.py:669-673 | an answer gives the average over all sessions, for every score, if and only if nothing was skipped before |
| `Pact.SkipLowersIff` | app/domain/pact.py:394-399 | a skip pulls completeness toward 50 and lowers it if and only if it stands above by more than half a session's share (or by exactly half, when odd) |
| `QuietHours.ScheduledIsLeast` | app/domain/notifications.py:62-100 | for plain, wrapping and empty intervals the planned instant is the first one outside, no further off than the interval is long |
| `QuietHours.LeastIsUnique` | app/domain/notifications.py:92-100 | and that description has no other solution |
| `QuietHours.QuietIff` | app/domain/notifications.py:62-71 | an instant is quiet if and only if it lies in a stretch that began, when the zone's clocks showed start, on its date or the day before, and in one stretch only |
| `QuietHours.StretchEndsAtEnd` | app/domain/notifications.py:74-100 | whatever falls into a stretch is planned for its end, its whole length after start, when the clocks show end |
| `QuietHours.WaitsWholeLength` | app/domain/notifications.py:92-100 | from the instant at which the clocks show start the wait is exactly the length of the quiet hours |
| `QuietHours.ScheduledIsStableAndMonotone` | app/domain/notifications.py:92-100 | planning again changes nothing, later moments are never planned earlier, and all moments of one wait share its end |
| `QuietHours.NextEndIsAheadIff` | app/domain/notifications.py:74-89 | asked outside the quiet hours, the computed end lies ahead if and only if the interval does not wrap |
| `Growth.Ledger.InsertGrowthEvent` | app/repositories/growth.py:60-113 | the first insert of a key wins and later ones leave the stored payload alone |
| `Growth.Ledger.MarkApplied` | app/repositories/growth.py:116-124 | an event is marked at most once |
| `Growth.Ledger.ApplyGrowthToSpirit` | app/repositories/growth.py:127-186 | all values clamped and the version raised by one for the owner's spirit; nothing at all when there is no effect; an error for another owner's |
| `Growth.Ledger.RecordAndApply` | app/services/growth.py:27-66 | insert, apply and mark together are one step: settled at most once per key, rolled back on error |
| `GrowthRuns.SpiritsAreSettled` | app/services/growth.py:27-66 | after any sequence of deliveries the spirits are what the settled ones alone make of them, in order |
| `GrowthRuns.EachKeyOnce` | app/domain/growth.py:274-284 | no key settles twice, and each stored event is that of the first delivery of its key to commit |
| `GrowthRuns.ReplayChangesNothing` | app/services/growth.py:27-66 | once a key is stored, delivering it again at any later point, with any content, changes nothing then or afterwards |
| `GrowthRuns.SpiritsStaySound` | app/domain/growth.py:146-147 | all values stay in 0..100, the version counts the settled deliveries with an effect, the last interaction never moves back |
| `GrowthRuns.LastInteractIsLatest` | app/repositories/growth.py:127-186 | after any sequence the last interaction is the latest of what it was and of the settled deliveries that touch |
| `GrowthRuns.TraitsMoveSlowly` | app/domain/growth.py:146-147 | a personality trait moves by two at most with every settled delivery |
| `GrowthRuns.SettlesIff` | app/services/growth.py:27-66 | a delivery settles if and only if its payload is allowed, its spirit exists, its owner owns what it would change, and no delivery of the same event and source has settled |
| `GrowthRuns.DeltasAddUp` | app/repositories/growth.py:127-186 | as long as nothing is clamped, a value is what it was plus the sum of the settled deltas of its field |
| `GrowthRuns.DeltasCommuteIff` | app/domain/growth.py:146-147 | two deltas commute if and only if they do not pull in opposite directions or neither alone passes an end |
| `GrowthRuns.SameKeyOtherSpirit` | app/domain/growth.py:274-284 | the key does not name the spirit: the same fact for a second spirit is taken for a repeat |
| `SweepRuns.PageExact` | app/integrations/account_storage.py:35-54 | a page is the first keys after the cursor in order, and exactly those up to its last |
| `SweepRuns.OnlyLatePutsAreLeft` | app/services/account_delete.py:223-240 | for any sequence of pages, interrupted pages and new objects, what is left at the end is exactly the objects stored behind the cursor |
| `SweepRuns.UndisturbedSweep` | app/services/account_delete.py:223-240 | with nothing stored in between, the sweep is over after as many pages as the objects fill, not earlier, and leaves none |
| `AccountStorage.ObjectStore.DeletionListPrefix` | app/integrations/storage.py:94-100 | the sorted paths of the bucket under the prefix |
| `AccountStorage.ObjectStore.ServiceDelete` | app/integrations/storage.py:88-89 | the one object is gone and every other is as it was |
| `AccountStorage.Catalog.ListOwnerPage` | app/integrations/account_storage.py:35-54 | a page over both stores in the order of bucket:path, after the cursor; AccountOwners.OwnedIff says whose objects are in it |
| `AccountStorage.Catalog.DeleteObject` | app/integrations/account_storage.py:56-64 | the object is deleted in the store its bucket names, an unknown bucket is refused |
| `AccountOwners.PrefixIsOwner` | app/integrations/account_storage.py:42-43 | a path lies under an owner's prefix if and only if it has three segments or more of which the first is the store's folder and the second the owner |
| `AccountOwners.OwnedIff` | app/integrations/account_storage.py:35-54 | the listed keys of an account are exactly those of the stored objects whose path has it as second segment |
| `AccountOwners.OthersStay` | app/integrations/account_storage.py:42-43 | for different owners deleting the one leaves every object of the other as it was, and its listed keys |
| `AccountOwners.WrittenIsOwned` | app/domain/sight_upload.py:37-38 | a stored upload, and stored speech, is among the objects of its own owner and of nobody else |
| `AccountOwners.ServerPathIff` | app/domain/sight_upload.py:41-49 | the segment checks refuse no path that the server made |
| `Ordering.LessIff` | app/integrations/account_storage.py:51-54 | the order of the listing: two keys agree up to a place where the first ends or has the smaller character |
| `AccountDelete.DeleteStoragePage` | app/services/account_delete.py:223-240 | one tick is one sweep step on the owner's keys; nothing outside the owner's two prefixes is touched, and every other owner's keys stay |
| `AccountDelete.DeleteAllObjects` | app/services/account_delete.py:160-171 | the ticks end, one for each page, with no object left under the owner's prefixes, all other objects of both stores unchanged and every other owner's keys as they were |

## Left out

- The wording of a finding, and the final sort of the report: findings carry kind and location; findings drawn from a set are compared as specified, not in an alphabetical order.
- `$ref: null` beside an explicit type list: Python's repr of a reference value is modelled by the value itself, so references differ exactly when the values do.
- DocumentMeaning.ResponsesKeepTheirMeaning: a constant must not go or change (`SchemaGaps.ConstChangedIff` has the exact condition); where a schema restricts extra properties, an added property must be compatible with the old rule for them, which for a closed schema means one that admits nothing (`SchemaGaps.AddedIff` has the exact condition); members of a oneOf must compare clean both ways, or be apart by their types or by the literal or listed texts of a required property, also where they are references to components (`SchemaGaps.OneOfNarrowedIff` has the exact condition for one member).
- DocumentMeaning.RequestsStayValid: no constant may come or change; an added property must find extra ones forbidden, or be compatible with the old rule for them, or accept everything; members of a oneOf as for responses, with the new ones apart.
- DocumentMeaning.RequestsKeepTheirMeaning: asks for a clean report in both directions, because one does not give the same meaning (`SchemaGaps.RequestGap`), and for unchanged constants, which no report covers (`SchemaGaps.LiteralChangedIff`). `DocumentMeaning.BothWays` asks for the same.
- Breaking.SchemaEmptyIff: in a list of names, the text of a float, list or dictionary is kept apart from a string that spells it.
- References that only lead back to themselves: a value is valid when it is accepted at every large enough depth of references.
- JSON Schema keywords the checker does not read (formats, bounds, patterns): a value's validity is judged by the keywords it reads and by `const`, as which a single literal is exported.
- Daylight saving and the time zone database: a zone is a fixed offset between UTC-12 and UTC+14; an unknown name falls back to the default.
- Two transactions inside one reservation insert: the re-read after a lost insert race is not modelled, each service call is one step between the others.
- The order in which an UPDATE returns its rows: claimed tickets are listed in the order they are picked.
- Reopening of a stale hold keeps its identifier as in the source; the identifiers themselves are positions in the table.
- The usage patch and the quota view sent to clients: field by field copies.
- SHA-256, HMAC and JSON text: the MAC is any function with 32 bytes (RFC 2104, section 2), the body codec any printer with a parser that inverts it.
- The comparison of MACs in constant time, and the size limits of HTTP parameters.
- Cursors.RoundTripIff: says nothing about forging a token, which is a property of the MAC.
- Identifiers: UUIDs are natural numbers, whose order is that of their 128 bits; in object paths they are texts without a slash.
- DocumentDifferences.ReportIsExact: for documents whose mappings repeat no key, which decoding guarantees; how often a type change is reported at one place is not part of it, since the texts that tell such findings apart are left out.
- Row columns that no rule looks at (tags, salience, confidence, content, style samples) and the idempotency records of memory requests.
- MemoryTable.Memories.ListActiveKeyset: returns whole rows; the conversion of column types is not modelled.
- The character database behind white space and digits: which characters are either is given.
- Pact.DriftIsReached: stops at 200 sessions because a score cannot exceed 100.
- Pact.AnswerAveragesAllIff: for up to 30 answered sessions; a pact has one session a day for seven days.
- Notification caps, care eligibility and the outbox: other rules than the planned instant.
- GrowthEvent columns for the time of occurrence and random event identifiers: the unique key stands for the row.
- Growth facts written by other producers with their own SQL (chat, feed, recall).
- A payload field given as null, which the schema drops before anything else.
- The two store classes share one class here, whose object dictionary and two methods are the same in both; the TTS cache index is not part of this model.
- AccountDelete.DeleteAllObjects: runs the ticks of one worker without failures; interrupted pages and late uploads are covered by `SweepRuns.OnlyLatePutsAreLeft`.
- Provider payloads, HTTP status parsing, audio conversion by ffmpeg and logging: foreign calls; an attempt returns, fails with a kind, or lets an exception escape.
- Everything behind `private.*` functions in the database, the web layer, authentication, workers other than those named.
