# Games system: what its two architectures guarantee

The repository implements one reservation and scoring state machine twice, as a threaded in-memory monolith
(`Traditional/server.py`) and as operations on a state dictionary (`common/operations.py`) that short-lived processes
run against one stored JSON blob (`FaaS/`). This project models both, the four ways they are run, the go-live cascade,
the medal projection, and the tools that judge the runs, and proves what holds over every input, every run, every
interleaving and every crash.

`dafny verify dfyconfig.toml` checks everything.

## Layout

| file | what it holds |
|---|---|
| `Domain.dfy` | roster, buckets, requests, replies, typed log entries; the score table keeps its insertion order |
| `Semantics.dfy` | what each operation means, and replays of request sequences |
| `Standings.dfy` | the medal ranking and why it is canonical |
| `MedalProjection.dfy`, `MedalClosedForm.dfy` | the linear congruential generator and its period; every draw in closed form |
| `Operations.dfy` | the core operations as a class that mutates one state dictionary |
| `Monolith.dfy` | the monolith's globals and dispatcher as a class |
| `Equivalence.dfy` | both implementations serving the same requests side by side |
| `DeliveryLog.dfy` | the deliveries in a log |
| `Histories.dfy` | seats, shuttles, venues, subscribers and medal scores read off a history of requests |
| `Registers.dfy` | the other buckets read off a history, and what replies and log entries say |
| `FaasProtocol.dfy` | invocations sharing the blob: load/operate/save, transactions, crashes, any mixture |
| `Storage.dfy` | the store, the gateway and the go-live chain as imperative code |
| `MonolithThreads.dfy` | each request as a program of single reads and writes of the globals |
| `ThreadedServer.dfy` | threads running those programs, with the coarse lock or without |
| `SeatOwners.dfy` | which booking and which request decide who owns a seat, in locked and unlocked runs |
| `LostBoarding.dfy`, `LostAward.dfy` | two unlocked requests that lose an update |
| `LateSubscribers.dfy`, `LiveScans.dfy` | pushing and ranking while others change what is being read |
| `Cascade.dfy` | go-live as three calls: interleaved with others, crashed and retried |
| `Tallies.dfy`, `Verdicts.dfy` | the benchmark's checkers, and which verdicts each protocol allows |
| `StableSort.dfy`, `Dispatcher.dfy` | the paced, capped dispatcher |
| `DispatchTimes.dfy` | the clock readings behind the dispatcher's records |
| `CompareStates.dfy` | the MATCH gate over JSON trees |
| `Templates.dfy`, `SectionRewrite.dfy` | replacement templates, and the marked-section rewrite of PROJECT.md |
| `Subsequences.dfy` | duplicate-free subsequences |

## How to read the model

* A state is nine buckets and a log. Operations are pure functions from buckets to an `Effect`: new buckets, log entries
  and a reply, which is absent when the process aborts (`render_highlight` on a corrupt input). The classes in
  `Operations`, `Monolith` and `Storage` mutate fields as the Python does and are proved to produce those effects.
* The roster is a parameter: any finite sets of IDs, with the empty string not a user.
* In the state machines a step that is not enabled changes nothing, so every sequence of actions is a run, and a
  statement about every sequence is a statement about every interleaving.
* In `FaasProtocol` each invocation is naive or transactional on its own, and may crash between any two steps.
  `SaveOrder` is the order of saves and commits; `AncestryOf` says whose effects a blob contains, and is history, not
  state. In the records given to the checkers a reply counts as given once its invocation has saved; one that died gave
  none.
* In `SectionRewrite` the replacement is a template of Python's `re`, as it is for `subn`: a literal body is one in
  which no backslash comes before a letter, a digit or another backslash.
* In `MonolithThreads` every read and every write of a shared field is its own step, including the `_CTX` write on entry
  and its read after the race window. `setdefault` and one dictionary or list write are single steps; while ranking, the
  four numbers of an entry are read one at a time.
* The comment at `common/operations.py:9-12` says both architectures call the shared functions. They do not any more:
  the monolith carries its own copy of the logic, which `Monolith.dfy` models and `Equivalence.dfy` runs beside the
  core's.

## Results that are not what one might expect

* `Cascade.ReductionIff`: the three-call chain does not always end where the atomic `go_live` would. The lemma gives the
  exact condition on the other requests served in between; `Cascade.ReductionFails` breaks each half of it.
* `Cascade.RetryNotifies`: retrying converges on the state but not on the notifications, which are repeated per attempt.
* `Histories.OverCapacityIff`: a shuttle can be over its capacity, namely when the first dispatch asks for a negative
  one and every dispatch asks for more than that. `Histories.OverCapacityHappens` is the smallest case.
* `CompareStates.InvisibleMatch`: a match whose ID is `log`, `updated_at` or `ts` is invisible to the MATCH gate.
  `CompareStates.GateMissesLog` is a workload the gate takes for an empty one.
* `Verdicts.DoubleSaleVerdict`: the seat tally counts by seat ID alone, so with nothing lost it reports a double sale
  exactly when one ID was sold in two different matches. `Verdicts.SoldInBothMatches` is such a pair of sales, and
  `Verdicts.StoreDoubleSaleIff` and `Verdicts.ServerDoubleSaleIff` say for which requests it happens.
* `SeatOwners.StoredOwner`: without the lock a booking told "ok" need not own its seat. The owner is whoever the last
  request to have entered acted for, at the moment the last booking to write the seat left its window.
  `SeatOwners.WrongOwner` has another request enter in between; `SeatOwners.BothTold` has two bookings of one seat, each
  the last to have entered when it left its window, both told the seat is theirs.
* `LostBoarding.OneGroupLost`: without the lock, two dispatches of one shuttle can both be accepted and the shuttle
  carry only one group. `LostAward.OneAwardLost`: two golds awarded at once can leave one gold and six points.
* `LiveScans.ScansAreComplete`: even without the lock, a ranking that is published has read every country there was at
  the end of its scan, because a scan during which a country came in raises.
* `SectionRewrite.VerbatimIff`: a status note is not inserted as it is when it holds a backslash before a letter, a
  digit or another backslash. `SectionRewrite.BackslashBodies` has a note that makes every rewrite raise and one that
  changes.

## Model

| member | source | states |
|---|---|---|
| MedalProjection.ProjectMedals | common/operations.py:296-305 | the loop returns the number of gold draws among the first `iterations` draws from the seed; a negative count draws nothing |
| MedalProjection.IterateIsOrbit | common/operations.py:299-302 | masking every draw gives the same residues as masking once at the end of the unmasked recurrence |
| MedalProjection.PowerOfTwoDraws | common/operations.py:302 | 2^k draws are an affine map with an odd displacement times 2^k |
| MedalProjection.ReturnTime | common/operations.py:302 | m draws return to the same residue if and only if 2^31 divides m |
| MedalProjection.FullPeriod | common/operations.py:302 | a 31-bit state recurs after m draws if and only if m is a multiple of 2^31 |
| MedalProjection.SingleCycle | common/operations.py:302 | 2^31 consecutive draws from any seed visit every 31-bit value exactly once |
| MedalProjection.DrawIsPermutation | Traditional/server.py:288 | every 31-bit value has exactly one 31-bit predecessor |
| MedalProjection.GoldInOnePeriod | common/operations.py:301-304 | one period of draws contains exactly the golds among 0 to 2^31-1 |
| MedalProjection.GoldPerPeriod | Traditional/server.py:285-291 | 2^31 more iterations raise the projection by exactly 10737420, for every seed and count |
| MedalProjection.GoldAfterPeriods | common/operations.py:297-305 | and by 10737420 for each of any number of periods |
| MedalProjection.GoldsBelow | common/operations.py:303 | of 0 to n-1, five in each full thousand and at most five in the rest count as gold |
| MedalClosedForm.DrawClosedForm | common/operations.py:302 | the n-th draw from any seed x is 1103515245^n * x plus 12345 times the sum of the smaller powers, modulo 2^31 |
| MedalClosedForm.SeriesIsGeometric | common/operations.py:302 | where 1103515244 times that sum is 1103515245^n - 1 |
| MedalClosedForm.ProjectionCounts | common/operations.py:301-304 | the projection is the number of places from 1 to n at which that closed form is below 5 modulo 1000 |
| MedalClosedForm.SeedAddsPoints | common/operations.py:299 | the seed adds up code points one by one, from 0, and is 1 exactly when they come to 0 |
| MedalClosedForm.SeedAnyOrder | common/operations.py:299 | in whatever order |
| MedalClosedForm.ProjectionReply | common/operations.py:296-305 | a projection reports those golds for the number of draws asked for, 200000 if none is, changes no bucket and logs nothing |
| MedalClosedForm.ProjectionSamples | Traditional/server.py:285-291 | one draw projects 0 golds for JPN and 1 for AAE |
| Standings.RankingIsStandings | common/operations.py:253-263 | the ranking has every scored country once, with its own medals, strictly ordered by points, gold, silver and code, ranked 1 to n |
| Standings.StandingsUnique | common/operations.py:259-262 | no other list has those properties |
| Standings.RankedAbove | common/operations.py:260 | whoever is ranked above has more points, or as many and more golds, or those too and more silvers, or the code that is a prefix or smaller at the first difference |
| Standings.RankingCanonical | Traditional/server.py:246-253 | score tables with equal entries rank identically, whatever their insertion order |
| Semantics.OnlyAbortsAreSilent | common/operations.py:323-325 | a call ends without a reply exactly when it is a corrupt highlight |
| Semantics.RepliesExtend | FaaS/gateway.py:35-39 | serving one more request leaves all earlier replies as they were and adds the one it gets in the state reached |
| Semantics.GoLive | common/operations.py:268-281 | push, allocation and recomputation add up to one status, one stream and the ranking of the scores, and to nothing else in the buckets |
| Operations.StateDict.BookVenueSlot | common/operations.py:68-84 | the dictionary, log and reply become the booking's effect on the old ones: unknown venue, occupied venue, booked |
| Operations.StateDict.ReleaseVenueSlot | common/operations.py:87-98 | same for a release: never booked or free venue, released |
| Operations.StateDict.BookTicket | common/operations.py:101-124 | same for a ticket: unknown user, sold seat, sold |
| Operations.StateDict.AssignVolunteer | common/operations.py:127-140 | same for a volunteer: unknown volunteer, unknown venue, assigned |
| Operations.StateDict.DispatchShuttle | common/operations.py:143-160 | same for a dispatch: capacity from the first one, route always overwritten, over capacity or boarded |
| Operations.StateDict.ReserveRestaurantTable | common/operations.py:163-180 | same for a table: unknown athlete, party outside 1 to 8, reserved |
| Operations.StateDict.SubscribeToUpdates | common/operations.py:183-195 | same for a subscription: unknown user, already there, appended |
| Operations.StateDict.PushLiveEvent | common/operations.py:198-212 | the status is set, one delivery per subscriber is logged in order, then the push, and their number is reported |
| Operations.StateDict.UpdateCountryScore | common/operations.py:215-231 | unknown country, unknown medal, or medal and points counted and the new points reported |
| Operations.StateDict.AllocateStream | common/operations.py:237-243 | the stream is on air for the match |
| Operations.StateDict.RecomputeStandings | common/operations.py:246-265 | the loops leave the canonical ranking of the scores |
| Operations.StateDict.GoLive | common/operations.py:268-281 | push, allocation and recomputation in sequence, each with its own entries, then the cascade's own |
| Operations.StateDict.Invoke | common/operations.py:329-348 | calling any registered operation takes the state to that operation's state and returns its reply |
| Operations.StateDict.FromBlob | FaaS/storage.py:27-33 | a loaded dictionary holds exactly the stored state |
| Monolith.Server.constructor | Traditional/server.py:44-59 | a fresh process has the initial state and the actor "system" |
| Monolith.Server.ResetState | Traditional/server.py:84-90 | a reset process is a fresh one |
| Monolith.ActorIff | Traditional/server.py:107-108 | who acts, from the request's own fields: a user, subscriber, volunteer or athlete ID that is not empty, and "system" exactly for requests that carry none |
| Monolith.Server.SetStatus | Traditional/server.py:214-215 | the match keeps its venue and seats and gets the status; every other match is untouched |
| Monolith.Server.Deliver | Traditional/server.py:216-218 | one delivery per subscriber is appended, in subscription order |
| Monolith.Server.Rerank | Traditional/server.py:246-253 | the inlined loops store the canonical ranking and report the number of countries |
| Monolith.Server.BookVenueSlot | Traditional/server.py:110-123 | the inlined branch has the core's effect, log and reply |
| Monolith.Server.ReleaseVenueSlot | Traditional/server.py:125-134 | same |
| Monolith.Server.BookTicket | Traditional/server.py:136-154 | with its own actor in `_CTX` the inlined branch has the core's effect and its own shorter rejection entries |
| Monolith.Server.AssignVolunteer | Traditional/server.py:156-167 | the inlined branch has the core's effect, log and reply |
| Monolith.Server.DispatchShuttle | Traditional/server.py:169-181 | the inlined branch has the core's effect, log and reply |
| Monolith.Server.ReserveRestaurantTable | Traditional/server.py:183-196 | same |
| Monolith.Server.SubscribeToUpdates | Traditional/server.py:198-208 | same |
| Monolith.Server.PushLiveEvent | Traditional/server.py:210-220 | same, with one delivery per subscriber before the push entry |
| Monolith.Server.UpdateCountryScore | Traditional/server.py:222-235 | same, including the points reported |
| Monolith.Server.AllocateStream | Traditional/server.py:237-242 | same |
| Monolith.Server.RecomputeStandings | Traditional/server.py:244-255 | same, through the inlined ranking loops |
| Monolith.Server.GoLive | Traditional/server.py:257-278 | the inlined cascade leaves the core's buckets, logs the deliveries and one entry, and reports success |
| Monolith.Server.Dispatch | Traditional/server.py:102-299 | for every request the dispatcher leaves the core's buckets, the monolith's entries and the core's reply, and whom the request acts for in `_CTX` |
| Monolith.Server.Handle | Traditional/server.py:310-315 | after any past, one more request continues the replay and its reply, there is no reply exactly for a corrupt highlight, and `_CTX` names the ID the request carries, or "system" |
| Monolith.Server.RunWorkload | Traditional/server.py:348-352 | a workload is the replay of its events with its replies, unless it holds a corrupt highlight, and then the process is gone |
| Monolith.NextReply | Traditional/server.py:310-315 | the monolith's replay answers the next request as the core's does |
| Monolith.SameDeliveries | Traditional/server.py:216-218 | and logs the same deliveries in the same order |
| Equivalence.ServeBoth | common/operations.py:329-348 | from equal buckets and equal deliveries, the core's registry and the monolith's dispatcher give any request the same reply and end with equal buckets and equal deliveries again |
| Equivalence.RunBoth | Traditional/server.py:102-299 | so any workload run on both, up to a request that aborts, has equal replies one by one, equal buckets and equal deliveries in order |
| DeliveryLog.CoreFanOut | common/operations.py:207-212 | a call delivers once to each current subscriber if it is a push or a go-live, and to nobody otherwise |
| Histories.SeatStep | common/operations.py:111-124 | a free seat is taken by the next valid bid for it and nothing else, an owner stays, and a bid is accepted exactly when the seat is free |
| Histories.SoldIff | common/operations.py:115-122 | in every history a seat has an owner exactly when some rostered user bid for it |
| Histories.OwnerIsPermanent | common/operations.py:117-122 | an owner is never replaced by any continuation |
| Histories.OneWinner | common/operations.py:101-124 | a bid is accepted exactly when it is the seat's first, and then its user owns the seat at the end |
| Histories.PassengersAreBoarded | common/operations.py:151-158 | a shuttle carries exactly the seats of its accepted dispatches |
| Histories.CapacityAndRoute | common/operations.py:151-152 | its capacity is the one the first dispatch asks for, by name or by leaving it out, and its route the last one's, accepted or not |
| Histories.FiftySeats | common/operations.py:147-158 | a shuttle first dispatched without a capacity holds 50 after any history; a dispatch is then accepted exactly when those aboard and the seats it names, none if it names none, are at most 50 |
| Histories.FirstAnswer | Traditional/server.py:172-181 | a first dispatch leaves a shuttle of the capacity it names or 50, with its seats aboard if they fit in that |
| Registers.AbsentShuttleParameters | common/operations.py:147-148 | seats left out are 0 and a capacity left out is 50 |
| Histories.OverCapacityIff | common/operations.py:154-158 | it is over capacity exactly when the first dispatch asks for a negative one and every dispatch asks for more seats than that; it is empty then |
| Histories.OverCapacityHappens | common/operations.py:147-154 | dispatching nobody with capacity -1 leaves a shuttle over capacity |
| Histories.OverCapacityMeansRefused | common/operations.py:154-158 | in terms of the replies, the capacity is negative and nothing was ever accepted |
| Histories.VenueProtocol | common/operations.py:68-98 | accepted bookings and releases alternate from a booking on, the venue is free, or held by the last booking's match, accordingly, and a venue outside the roster has none |
| Histories.BookingAnswer | common/operations.py:72-84 | a booking is accepted if and only if its venue is rostered and not occupied |
| Histories.UnknownVenue | common/operations.py:72-73 | after any history a venue outside the roster is free and a booking of it is refused |
| Histories.SubscribersAreSignUps | common/operations.py:191-193 | a topic's list is the accepted sign-ups without repeats, in order of first sign-up |
| Histories.ExactFanOut | common/operations.py:207-212 | the deliveries in the log are one per person signed up before each push or go-live, in order, and no others |
| Histories.PushReportsAudience | common/operations.py:211-212 | a push reports the number of people signed up before it |
| Histories.ScoresAreTallies | common/operations.py:226-229 | each entry counts the accepted awards, with points 3*gold + 2*silver + bronze, and exists only after one |
| Histories.SameAwardsSameStandings | common/operations.py:215-265 | histories with the same awards in any order and company rank identically |
| Histories.StandingsAsOfLastRecompute | common/operations.py:263 | the stored standings rank the scores as they were at the last recomputation |
| Registers.MedalsAreAwards | common/operations.py:228 | a score's golds, silvers and bronzes are the numbers of valid awards of each |
| Registers.PointsReported | common/operations.py:219-231 | an award is accepted exactly for a rostered country and one of the three medals, and reports three points a gold, two a silver and one a bronze so far |
| Registers.LoadReported | common/operations.py:153-160 | an accepted dispatch reports everybody boarded so far |
| Registers.CountriesReported | common/operations.py:263-265 | a recomputation reports the number of countries ranked |
| Registers.VolunteersAreWherePosted | common/operations.py:127-140 | a volunteer is at the venue of the last valid assignment, valid meaning both rostered, and exactly those are accepted |
| Registers.TablesAreLastReserved | common/operations.py:168-178 | a table's entry, filed under restaurant:athlete, is the last reservation by a rostered athlete for one to eight |
| Registers.StatusIsLastSet | common/operations.py:205 | a match has the status of its last push, or "live" after a go-live |
| Registers.StreamIsLastAllocated | common/operations.py:241 | a stream is on air for the match it was last given to |
| Registers.StandingsIff | common/operations.py:263 | there are standings exactly after a recomputation or a go-live |
| Registers.AbsentTexts | common/operations.py:202-325 | a push without details has the empty text, a go-live says "match is live", and a highlight is of match "?" |
| Registers.VenueAndSeatRefusals | common/operations.py:72-118 | each refusal of a booking, release or ticket is given exactly for its reason |
| Registers.OtherRefusals | common/operations.py:131-224 | and so is each refusal of the other requests |
| Registers.AcceptedReplies | common/operations.py:84-325 | what an accepted request is told, with its own IDs |
| Registers.OtherAnswers | common/operations.py:187-325 | subscriptions are refused exactly for unknown users, and pushes, streams, rankings, go-lives and projections never |
| Registers.CoreTellsRefusals | common/operations.py:60-62 | a request that is refused logs one refusal and nothing else, and others log none |
| Registers.MonolithTellsRefusals | Traditional/server.py:113-230 | the same of the monolith's log |
| Registers.RefusalEntries | common/operations.py:73-189 | which refusal, and with which fields |
| Registers.RefusalCounts | common/operations.py:155-224 | the same for dispatches, tables and scores |
| Registers.MonolithRefusalEntries | Traditional/server.py:113-230 | the monolith logs the same ones, but for a refused ticket's, which lacks its match or its user |
| Registers.AcceptedEntries | common/operations.py:83-242 | what an accepted booking, release, assignment, reservation, subscription or allocation logs |
| Registers.AcceptedCounts | common/operations.py:159-230 | an award logs itself, a dispatch the number aboard after it |
| Registers.AnnouncementEntries | common/operations.py:210-280 | a push logs itself last, and a go-live itself last, on both sides |
| FaasProtocol.NaiveAlone | FaaS/functions/_runtime.py:33-38 | uninterrupted, load, operation, save and response are one atomic call |
| FaasProtocol.TransactionAlone | FaaS/storage.py:69-79 | uninterrupted, the transaction's steps are one atomic call and leave the lock free |
| FaasProtocol.Lineage | FaaS/functions/_runtime.py:30-36 | whatever the paths, interleaving and crashes, the blob is the sequential replay of a duplicate-free subsequence of the savers in save order, each of which replied as in that replay |
| FaasProtocol.LineageInSaveOrder | FaaS/storage.py:27-45 | the lineage's members are found at ever later places in save order |
| FaasProtocol.InvariantsSurvive | FaaS/storage.py:27-45 | what the operations preserve holds of every stored blob and of every loaded or computed copy |
| FaasProtocol.CommitLosesNothing | FaaS/storage.py:52-81 | a commit extends the blob it finds, even among naive saves |
| FaasProtocol.NothingLostIff | FaaS/storage.py:27-45 | every save is in the final blob if and only if each saver had loaded all saves before its own |
| FaasProtocol.Serializable | FaaS/storage.py:52-81 | with transactions only, the blob is the fold in commit order, every reply is the one at its place in it, and whoever has saved or answered is in it |
| FaasProtocol.RealTimeOrder | FaaS/storage.py:69-78 | an invocation answered before another starts comes first in save order |
| FaasProtocol.PoisonIsContained | common/operations.py:323-324 | a poisoned invocation never saves and never answers |
| Storage.Store.LoadState | FaaS/storage.py:27-33 | a fresh dictionary with the stored state, or the initial one if there is no row |
| Storage.Store.SaveState | FaaS/storage.py:36-45 | the row becomes the dictionary's contents |
| Storage.Store.TransactionalApply | FaaS/storage.py:52-81 | the row becomes the operation's state and the reply is its reply; an aborted operation leaves the row alone |
| Storage.Store.Run | FaaS/functions/_runtime.py:30-38 | one at a time, both paths do that |
| Storage.Store.Invoke | FaaS/gateway.py:25-32 | after any past, a call continues the replay; the medal projection does so without touching the row |
| Storage.Store.RunWorkload | FaaS/gateway.py:35-39 | a workload is served up to its first corrupt highlight, and the store then holds the replay of exactly what was served |
| Storage.Store.GoLiveChain | FaaS/orchestrators/go_live_chain.py:39-56 | a chain that crashes after any number of its calls leaves the replay of those calls, all of them accepted |
| MonolithThreads.EndIsUnique | Traditional/server.py:102-299 | a request's program ends in one way only when nobody interferes |
| MonolithThreads.DeliveryLoop | Traditional/server.py:217-218 | undisturbed, iterating over the live list delivers to the rest of the subscribers and then leaves the loop |
| MonolithThreads.RerankRuns | Traditional/server.py:246-253 | undisturbed, the scan, which reads each entry's four numbers one at a time, publishes the canonical ranking |
| MonolithThreads.RunsAlone | Traditional/server.py:102-299 | run alone from any memory, a request's single reads and writes end in the dispatcher's atomic effect and reply |
| ThreadedServer.LockThenLeave | Traditional/server.py:310-315 | with the lock on, requests leave in the order they got it, and only its holder is still inside |
| ThreadedServer.Linearizable | Traditional/server.py:310-315 | every request that left returned its reply at its place in lock order, the globals are that sequential run's whenever the lock is free, and no request raises |
| ThreadedServer.LockOrderIsRealTime | Traditional/server.py:310-315 | a request that left before another arrived precedes it |
| ThreadedServer.MicroOwner | Traditional/server.py:142-152 | one step of any request changes the owner of at most the one seat a booking is writing |
| ThreadedServer.LockedOwnerIsPermanent | Traditional/server.py:310-315 | behind the lock no continuation of a run changes the owner of a seat, in the middle of a request or not |
| ThreadedServer.SeatsNeverVanish | Traditional/server.py:136-154 | with or without the lock, a seat somebody was told is theirs is never missing, and every owner is the actor of a request that entered |
| ThreadedServer.DeathIsFinal | Traditional/server.py:293-299 | once a poisoned request aborts, nothing in the process moves again |
| ThreadedServer.UnknownVenueNeverFiled | Traditional/server.py:113-116 | in every run, locked or not, a venue outside the roster never has an entry, and no request for it is ever about to write one |
| SeatOwners.StoredOwner | Traditional/server.py:107-152 | in every run, locked or not, a seat nobody wrote has no owner, and otherwise its owner is the actor of the last request to have entered when the last booking to write the seat left its window |
| SeatOwners.OwnerIsNamed | Traditional/server.py:107-152 | that owner is the user, subscriber, volunteer or athlete that request names, or "system" if it names none |
| SeatOwners.ToldOwnsIff | Traditional/server.py:146-154 | a booking told "ok" owns its seat if and only if that request acts for its user |
| SeatOwners.LockedTakesItself | Traditional/server.py:310-315 | behind the lock that request is the booking itself |
| SeatOwners.WrongOwner | Traditional/server.py:136-154 | without the lock, a booking and any other request can run so that the caller is told of the sale and the owner is the other's actor |
| SeatOwners.SubscriberGetsTheSeat | Traditional/server.py:107-154 | so a booking that a subscription enters behind is told of the sale while the seat's owner is the subscriber |
| SeatOwners.BothTold | Traditional/server.py:143-154 | without the lock, two bookings of one seat can both be told of the sale, and the later write owns it |
| LostBoarding.OneGroupLost | Traditional/server.py:172-181 | without the lock, two dispatches of one new shuttle, each within its capacity, can both be accepted and leave only the first one's group aboard |
| LostAward.OneAwardLost | Traditional/server.py:231-235 | without the lock, two equal awards to a country without a score can both be accepted and leave one medal and the points of two |
| LateSubscribers.FoundNobody | Traditional/server.py:216-220 | in every run, a push that found no list of subscribers delivers nothing and reports 0, whoever subscribes before it ends |
| LiveScans.ScansAreComplete | Traditional/server.py:246-253 | in every run, a scan of the scores that reaches its end has one row for each country in the table at that moment, in order, and raises instead if a country came in meanwhile |
| Cascade.MaskStep | common/operations.py:68-325 | no reply, and nothing else a request leaves, depends on a match's status, a stream or the standings |
| Cascade.ReductionIff | FaaS/orchestrators/go_live_chain.py:39-50 | the three calls with any others in between leave what an atomic go_live at the last call leaves, if and only if the others' last status for the match is "live" or absent and their last later allocation of the stream is to this match or absent |
| Cascade.ReductionFails | FaaS/orchestrators/go_live_chain.py:39-50 | from any state, finishing the match after the first call, or giving its stream to another match after the second, breaks the equality |
| Registers.ChainAlone | FaaS/orchestrators/go_live_chain.py:39-50 | undisturbed, the three calls leave the buckets one go_live leaves and log what it logs, but for its own entry |
| Cascade.FirstOthersCannotTell | FaaS/orchestrators/go_live_chain.py:41-49 | every request between the first two calls gets the reply it gets before the atomic go_live |
| Cascade.LaterOthersCannotTell | FaaS/orchestrators/go_live_chain.py:47-50 | and so does every request between the last two |
| Cascade.ChainUnderTransactions | FaaS/orchestrators/go_live_chain.py:39-50 | the same condition decides it for a chain of three transactions anywhere in a run of transactions |
| Cascade.RetryConverges | FaaS/orchestrators/go_live_chain.py:39-50 | any attempts crashed after any number of calls, then a complete one, leave what one go_live leaves |
| Cascade.RetryNotifies | FaaS/orchestrators/go_live_chain.py:41-46 | the deliveries are the whole audience once per attempt past the first call and once more |
| Tallies.CountSales | bench/mixed_burst.py:82-90 | the counter holds exactly the sold seats with their numbers of sales; a sale without a seat is the KeyError |
| Tallies.SeatRushTally | bench/mixed_burst.py:82-93 | attempts, sales, distinct seats and doubles are counted; doubles are the seat IDs sold more than once, each counted once |
| Tallies.RushNumbers | bench/mixed_burst.py:86-90 | attempts are the records of ticket_rush_spike and successes those of them that were granted |
| Tallies.SoldTwiceIff | bench/mixed_burst.py:91 | a counter above one means two different records sold that seat |
| Tallies.HotelShuttleTally | bench/mixed_burst.py:96-112 | the sum of accepted boardings, passengers and capacity of shuttle_hotel, 0 and 50 if it is not there, with both flags |
| Tallies.Misattributed | bench/context_leak.py:52-62 | present and wrong seats are counted, and none is wrong exactly when every stored owner is the booking's user |
| Tallies.SeatNumbers | bench/context_leak.py:52-62 | present ones are the booked seats that are stored, wrong ones those of them stored for somebody else |
| Verdicts.BoardingBalance | bench/mixed_burst.py:96-112 | boardings told, plus those accepted at places nobody reported, equal passengers plus boardings lost to stale saves |
| Verdicts.PassengerVerdict | bench/mixed_burst.py:108-111 | with everybody answered, passengers never exceed the boardings told, and equal them if nothing was lost |
| Verdicts.CapacityVerdict | bench/mixed_burst.py:105-111 | the capacity flag is raised exactly for requests whose first capacity is negative and which all ask for more |
| Verdicts.DoubleSaleVerdict | bench/mixed_burst.py:89-93 | with nothing lost, a seat ID counts as double-sold exactly when it was sold in two matches |
| Verdicts.DoubleSaleIff | bench/mixed_burst.py:89-93 | with nothing lost, and every valid request for the seat ID made in the rush and answered, it counts as double-sold if and only if rostered users asked for it in two matches |
| Verdicts.NoDoubleSale | bench/mixed_burst.py:91-93 | with nothing lost and no seat ID validly asked for in two matches during the rush, the count of double sales is 0, answered or not |
| Verdicts.SoldInBothMatches | bench/mixed_burst.py:89-93 | one seat ID booked in two matches by two users gives a sequential run with one double sale |
| Verdicts.OneWinnerPerSeat | common/operations.py:101-124 | a seat somebody validly asked for has exactly one accepted booking, and its user owns the seat |
| Verdicts.StoreExplained | FaaS/functions/_runtime.py:30-38 | the records of every run, of any mixture, are explained by the lineage of its final blob |
| Verdicts.StoreBalance | bench/mixed_burst.py:96-112 | at any moment of any run over the store the boardings balance, and with transactions nothing is lost |
| Verdicts.StoreShuttleVerdict | bench/mixed_burst.py:96-112 | over the store, at any moment of any run in which no saver has died: never more aboard than told on any mixture of paths, and no lost update with transactions |
| Verdicts.StoreCapacity | FaaS/storage.py:27-81 | every blob ever stored, on any path, keeps every shuttle within its capacity unless that is negative |
| Verdicts.StoreSeatVerdict | FaaS/storage.py:52-81 | with transactions, double sales are IDs sold in two matches |
| Verdicts.StoreNoDoubleSale | FaaS/storage.py:52-81 | so in every transactional run without such requests the tally reports none, whoever still runs or died |
| Verdicts.StoreDoubleSaleIff | FaaS/storage.py:52-81 | with transactions, no committer dead and the valid requests for the seat ID made in the rush and answered, it counts as double-sold if and only if they ask for it in two matches |
| Verdicts.StoreDoublesIff | bench/mixed_burst.py:91-93 | so with all of them so the reported number is 0 if and only if no seat ID was asked for in two matches |
| Verdicts.StoreOneWinner | FaaS/storage.py:52-81 | with transactions, while no committer has died, a seat some completed invocation validly asked for has exactly one accepted booking, a committer's, whose user owns it |
| Verdicts.StoreOwnerIsPermanent | FaaS/storage.py:52-81 | with transactions no continuation of a run changes the owner of a seat |
| Verdicts.StoreOwnerBid | FaaS/storage.py:27-45 | in every run, whatever the calls and their paths, a stored owner is the user of a call that saved a booking of exactly that seat of that match |
| Verdicts.StoreNeverMisattributes | bench/context_leak.py:52-62 | so where the calls book distinct seats of one match, as the benchmark's do, the checker finds no wrong owner, on either path |
| Verdicts.StoreVenues | FaaS/storage.py:27-45 | every blob ever stored obeys the venue protocol, with nothing accepted for a venue outside the roster |
| Verdicts.StoreUnknownVenue | common/operations.py:72-73 | no blob ever stored has such a venue occupied |
| Verdicts.ServerExplained | Traditional/server.py:310-315 | the records of every locked run are explained by the order in which requests left |
| Verdicts.ServerShuttleVerdict | Traditional/server.py:169-181 | behind the lock, no lost update and no overcapacity under a capacity that is not negative |
| Verdicts.ServerSeatVerdict | Traditional/server.py:136-154 | behind the lock, double sales are IDs sold in two matches |
| Verdicts.ServerNoDoubleSale | Traditional/server.py:310-315 | so in every locked run without valid rush requests for one seat ID in two matches the tally reports none |
| Verdicts.ServerDoubleSaleIff | Traditional/server.py:136-154 | behind the lock, with the valid requests for the seat ID made in the rush and answered, it counts as double-sold if and only if they ask for it in two matches |
| Verdicts.ServerDoublesIff | bench/burst_workload.py:182-190 | so for workloads that book only in the rush, as the benchmark's does, the reported number is 0 if and only if no seat ID was asked for in two matches |
| Verdicts.ServerOneWinner | Traditional/server.py:136-154 | behind the lock, at any moment, a seat some answered request validly asked for has exactly one accepted booking, whose user owns it |
| Verdicts.ServerVenues | Traditional/server.py:110-134 | behind the lock, the globals obey the venue protocol, with nothing accepted for a venue outside the roster |
| Verdicts.ServerUnknownVenue | Traditional/server.py:113-115 | and at no moment of any run, locked or not, is such a venue occupied |
| Verdicts.MisplacedIff | bench/context_leak.py:52-62 | in every run of the monolith, locked or not, with one booking a seat, a booked seat's owner is wrong if and only if its booking wrote it after leaving its window under another actor's entry |
| Verdicts.LeakCount | bench/context_leak.py:52-62 | and the checker's number of wrong owners is the number of such bookings |
| Verdicts.ServerNeverMisattributes | Traditional/server.py:310-315 | which is 0 in every locked run |
| StableSort.SortSorts | bench/bounded_dispatch.py:96 | the sort orders by key and loses and invents nothing |
| StableSort.SortStable | bench/bounded_dispatch.py:96 | items with equal keys keep their order |
| Dispatcher.Progress.RecordStart | bench/bounded_dispatch.py:48-52 | one more in flight, the maximum and the phase's first start kept up to date |
| Dispatcher.Progress.RecordDone | bench/bounded_dispatch.py:54-58 | one fewer in flight, one more done, in total and in its phase |
| Dispatcher.PhaseTotals | bench/bounded_dispatch.py:97-99 | the dictionary holds exactly the phases that occur, with their numbers of events |
| Dispatcher.DispatcherSafety | bench/bounded_dispatch.py:106-134 | in every schedule in-flight is started minus done and at most the pool size, the counters count finished events, and, after comparing, sleeping if need be and reading the clock again, nothing goes out before its scaled time or out of order |
| Dispatcher.HighWaterMark | bench/bounded_dispatch.py:50-51 | the reported maximum is reached at some point of the run and never exceeded |
| Dispatcher.PhaseCountsSumToDone | bench/bounded_dispatch.py:56-58 | at every point the phase counters add up to the done counter |
| Dispatcher.CompletionCounts | bench/bounded_dispatch.py:125-134 | when all jobs have finished every event is done and every phase has its total |
| Dispatcher.CompletionRecords | bench/bounded_dispatch.py:115-136 | and there is exactly one record per event with its own job's times and outcome (`DispatchTimes.ReturnedRecords` says which), returned in dispatch order |
| DispatchTimes.RecordTimes | bench/bounded_dispatch.py:115-122 | at every moment of every schedule, a record's times are what its event's own submission, pick and return read off the clock, less the start of the run, in that order and not before the scaled time |
| DispatchTimes.ReturnedRecords | bench/bounded_dispatch.py:102-136 | so on return every event has such a record, with the outcome of its call and no negative time |
| DispatchTimes.PickedInOrder | bench/bounded_dispatch.py:125-132 | workers take events in the order they were submitted, and read the clock in that order |
| DispatchTimes.PhaseStart | bench/bounded_dispatch.py:48-52 | a phase's first start is the pick time of the first of its events recorded as started, and is there exactly if one was |
| DispatchTimes.PhaseNumbers | bench/bounded_dispatch.py:97-99 | a phase's total is the number of its events |
| Dispatcher.StepsRemaining | bench/bounded_dispatch.py:106-134 | every step of the main thread or a worker is progress towards ten per event |
| Dispatcher.NeverStuck | bench/bounded_dispatch.py:125-134 | with at least one worker some step is possible until everything has finished |
| CompareStates.StripIdempotent | common/compare_states.py:15-20 | stripping leaves no volatile key at any depth and changes nothing the second time |
| CompareStates.MatchIff | common/compare_states.py:23-30 | two dumps match if and only if their nine buckets agree on everything not filed under a volatile name |
| CompareStates.MatchMeansEqual | common/compare_states.py:12-30 | for states whose IDs avoid those names, match means all nine buckets are equal as dictionaries |
| CompareStates.ReplayAvoids | common/compare_states.py:12 | a workload whose IDs avoid the volatile names replays to such a state |
| CompareStates.MatchOfWorkloads | common/compare_states.py:23-30 | so for two such workloads match means that their replays end in the same nine buckets |
| CompareStates.InvisibleMatch | common/compare_states.py:12-17 | a match filed under a volatile name is invisible to the gate although the states differ |
| CompareStates.GateMissesLog | common/compare_states.py:12-30 | replaying one push for a match called log differs from replaying nothing, and the gate says MATCH |
| CompareStates.UnseenIff | common/compare_states.py:12-17 | adding a match goes unseen if and only if its ID is log, updated_at or ts |
| CompareStates.Gate | common/compare_states.py:23-30 | replaying any workload through both architectures and comparing the dumps says MATCH, unless a corrupt highlight stopped a replay |
| Templates.Around | tools/sync_status.py:77 | between markers without backslashes the body is parsed and expanded on its own, with the newline after it |
| Templates.VerbatimIff | tools/sync_status.py:77-78 | over a match without backslashes, a template expands to itself exactly when no backslash in it comes before a letter, a digit or another backslash |
| Templates.VerbatimContains | tools/sync_status.py:77-78 | over any match, a template that expands to itself without being like that contains the match |
| Templates.EscapeTable | tools/sync_status.py:77-78 | what a backslash stands for before each ASCII letter and digit, a backslash or a dash |
| Templates.NumberedEscapes | tools/sync_status.py:77-78 | the whole match by its number, a group that is not there, and characters by octal numbers up to 255 |
| SectionRewrite.ReplaceIff | tools/sync_status.py:75-81 | the rewrite raises on the template exactly for bodies `re` does not accept, and otherwise succeeds exactly on texts with one marked block |
| SectionRewrite.ReplaceExpands | tools/sync_status.py:76-81 | a rewrite that succeeds puts the expanded body between the markers and keeps every character outside the block |
| SectionRewrite.VerbatimIff | tools/sync_status.py:76-78 | over any block, a body free of the start marker goes in as it is if and only if it is literal |
| SectionRewrite.VerbatimOverPlainBlock | tools/sync_status.py:76-78 | over a block without backslashes that holds of every body |
| SectionRewrite.BackslashBodies | tools/sync_status.py:77-78 | the body `a\qb` makes every rewrite raise, and `a\tb` goes in with a tab |
| SectionRewrite.RewriteWrites | tools/sync_status.py:75-81 | with a literal body free of the markers the text becomes what was before the block, the start marker, a newline, the body, a newline, the end marker and what was after; the body reads back, and exactly one block is left |
| SectionRewrite.LastRewriteWins | tools/sync_status.py:75-81 | for literal bodies, rewriting again gives what the second rewrite alone gives |
| SectionRewrite.RewritesCommute | tools/sync_status.py:84-101 | two sections apart from each other, in either order in the text, can be rewritten with literal bodies in either order |
| SectionRewrite.RenderTwice | tools/sync_status.py:84-101 | rendering again from the same status, with literal bodies, changes nothing |

## Left out

- HTTP handling, sockets, process spawning, the SQL engine and the JSON text codec: atomic steps, one write lock, and typed trees instead of text. IDs are strings, which is what survives the blob.
- Wall-clock timestamps, sleeping, the race-delay setting and every throughput or latency claim: the race window is an interleaving point and the dispatcher's clock is any monotone one.
- Reply texts and log entries are typed values, not rendered strings; two replies are equal here exactly when the same message is filled in with the same values.
- Parameter validation before an operation starts: requests are well formed, with integers already converted.
- `get_state`, which hands out live references, and unknown operations, where the two sides differ on purpose.
- Roster contents and workload generation: any roster and any request sequence instead.
- The chain's unused `venue_id` parameter is dropped.
- The monolith's inlined copies of the delivery loop, the ranking loops and the status write are one helper method each, and each branch of the dispatcher is a method.
- Monolith.Server.RunWorkload: says nothing about the state after an abort, because the process and its globals are gone.
- Single log appends and list appends are atomic, as in CPython; memory reordering is not modelled.
- ThreadedServer.SeatsNeverVanish: liveness of the lock is not stated; a thread can wait for ever if the others are always scheduled first.
- Crash of an invocation covers a killed process, an aborted operation and a lock wait that timed out; partial writes of the row are the SQL engine's business.
- Dispatcher.Progress.RecordDone: the progress line and its time estimate are not printed.
- Dispatcher.DispatcherSafety: the speed is any non-zero number, since zero is a division error in the source.
- Templates.Expand: the two exceptions `re` raises for a bad template are one outcome, and templates are read as CPython 3.12 reads them.
- SectionRewrite.RewriteWrites, LastRewriteWins, RewritesCommute and RenderTwice: stated for the bodies that go in as they are; `SectionRewrite.ReplaceExpands` says what the others become.
- `render_table` and `render_scenario` of tools/sync_status.py: a section's body is any string.
- `_phase_stats`, charts, profiling, flame graphs, reports, submission scripts and the remaining benchmarks.
