# KARR, verified

A Dafny model of the parts of KARR whose correctness is not visible from any one function, with
proofs over all inputs, all schedules and all runs.

- **The log stream, from container to browser.** `Wire` is the frame printer and the unescaping
  scan, `Reader` the chunked event reader, `Chunking` the proof that cuts do not matter below the
  pending cap, `EventStreamStandard` the comparison with section 9.2.6 of the WHATWG HTML Standard, `Relay` the
  pump, queue, keepalives and deadline as a state machine, `LogViewer` the line window,
  `EndToEnd` the theorem over all of them, `MidStream` the same in the middle of a frame and
  `Connection` the slot of a connection.
- **Environments on remote hosts.** `Environments` is reconciliation over the rows,
  `Lifecycle` the step system in which creates, starts, stops, removals, reconcile passes, crashes,
  force deletes and the hosts interleave freely, `LifecycleRuns` what becomes of one create, removal,
  list or deletion in the middle of that, `LifecycleAnswers` what each request ends with once the host
  has answered, `LifecycleFailures` the runs in which something is lost,
  `EnvironmentRequests` the requests as methods cut at their awaits,
  each segment a step of that system, and `AgentDelete` the deletion of an agent.
- **Guards.** `TokenBuckets`, `RateLimiting` and `RateLimiterRuns` are the per-client limiter under
  least-recently-used eviction, `StreamSlots` the log-stream slots, `BodyLimit` the body-limit
  middleware, `Registrations` the one-shot registration tokens.

Code that updates state is a class whose methods are proved equal to functions on values; the
lemmas are about those functions and their runs. The relay and the interleaved life of an
environment are step relations, because other parties act between their awaits.

`dafny verify dfyconfig.toml` checks everything.

## What turned out not to hold

Each comes with an input or a run in which it fails and a condition under which it holds; the
condition is exact unless said otherwise.

- The reader is not the event stream of the standard: it emits the unterminated rest at the end
  (`frontend/src/api/sse.ts:85-86`, `TailIsEmitted`), typed blocks without data, empty types and cut
  data. For texts below the pending cap, `ReaderIsStandardExactly` says when the two agree.
- The events depend on chunking once the pending cap fires (`frontend/src/api/sse.ts:77-82`,
  `CutLosesFrame`). For what the relay prints, `ReadBackExactlyWhenItFits` is exact. For an arbitrary
  text `ChunkingsAgree` is one-way: below the cap chunking never matters, and
  `SilentExactlyWhenCalm` says exactly when the cap can fire, but past it the events may still
  happen to be the same, as for a text of comments only.
- `Retry-After` can fall short of the wait by less than a millisecond
  (`src/karr/api/ratelimit.py:90`, `RetryAfterCanFallShort`); `RetryAfterSufficesExactly` says when
  it does not.
- "Container missing" can be written for a container that is there
  (`src/karr/services/reconcile.py:45-48`, `MissingCanBeStale`): exactly if the host made it after
  the list was taken, `LiveMarkedMissingExactly`.
- A create the host accepted can end without a row, after a force delete of its agent
  (`src/karr/services/agents.py:102-105`, `ForceDeleteLeavesOrphan`) or a removal once it is past
  `CREATE_GRACE` (`src/karr/services/environments.py:187`, `SlowCreateLeavesOrphan`): exactly then,
  `RowGoneExactly` and `AcceptedCreateEndsStopped`.
- A container whose create was answered with an error stays without a row, however often the agent
  is reconciled (`src/karr/services/environments.py:136-139` and 264-265):
  `LostAnswerLeavesContainer`, which is one-way.
- A removal can drop the row of a container that is there, with no force delete, no slow create, no
  crash and nothing lost by the host: it takes a stale "container missing" for the reason the host
  failed (`src/karr/services/environments.py:197-209`, `StaleRemovalLeavesOrphan`).
  `RemovalDropsLiveExactly` says when.
- A force delete that succeeds can leave a container: of an environment that arrives while it runs,
  or of a row it read before the create bound it (`src/karr/services/agents.py:77-105`,
  `ArrivalLeavesContainer`, `BoundAfterReadLeavesContainer`, `BoundDuringDeleteLeavesOrphan`).
  Exactly which stay is `DeletionDropsLiveExactly` in every interleaving and `DeletedLeavesExactly`
  for one call.
- A second reconcile on the same list is not always a fixpoint when container ids repeat
  (`SecondRunCanChange`): `SecondRunExactly`.
- The comment at `src/karr/api/sse.py:155-157` says `on_close` runs exactly once; the response calls
  it as well (`src/karr/api/sse.py:240-242`). Over a connection it runs once exactly if the relay was
  never started, and twice otherwise (`OneCallAndTwo`, `CalledOnceExactly`); what makes that harmless
  is `EndedConnectionHoldsNoSlot`.
- An error's detail is not always the message, because it is shown still escaped
  (`frontend/src/components/LogStream.tsx:100`, `DetailCanDiffer`): `DetailIsMessage`.

## Model

| member | source | states |
|---|---|---|
| Wire.EscapeIsPerCharacter | src/karr/api/sse.py:42-43 | the three replacements in a row act as one map on characters |
| Wire.EscapeOne | src/karr/api/sse.py:42-43 | of one character: a backslash is written before a backslash, r for CR and n for LF, and nothing else is changed |
| Wire.EscapeAppend | src/karr/api/sse.py:42-43 | a text is escaped part by part |
| Wire.EscapeHasNoBreaks | src/karr/api/sse.py:42-43 | an escaped line holds no CR or LF, so it cannot end a frame or start a field |
| Wire.UnescapeInvertsEscape | frontend/src/api/sse.ts:22-27 | unescaping an escaped line gives the line back, for all strings |
| Wire.EscapeInvertsUnescape | frontend/src/api/sse.ts:22-27 | escaping after unescaping gives a string back exactly when it consists of plain characters and complete sequences |
| Wire.StrayBackslash | frontend/src/api/sse.ts:22-27 | a backslash that begins none of the three sequences stays as it is, at the end too |
| Wire.DataFrameInjective | src/karr/api/sse.py:46-47 | no two log lines share a frame |
| Wire.CutSplitsOneSequence | frontend/src/api/sse.ts:43-44 | a cut escape is the escape of a prefix and at most one backslash whose partner was cut off |
| Wire.CutLineShowsPrefix | frontend/src/api/sse.ts:43-44 | an over-long line shows as the prefix whose escape fills the cut, or all but one character of it and then a stray backslash, and the marker |
| Reader.ParseBlockLoop | frontend/src/api/sse.ts:30-46 | the loop over a block's lines yields the last event field as name, the data fields joined in order, cut at the cap, and nothing for a block without either |
| Reader.NextBreak | frontend/src/api/sse.ts:70 | the first place where two newlines meet, or the end |
| Reader.TakeBlocks | frontend/src/api/sse.ts:69-76 | the inner loop takes the blocks one by one off the front |
| Reader.TakeIsParseAll | frontend/src/api/sse.ts:69-76 | taken one by one, they are the greedy split of the buffer, each parsed, with the same rest |
| Reader.GuardPending | frontend/src/api/sse.ts:77-82 | past the cap: what there is, cut and marked, and an empty buffer; otherwise nothing happens |
| Reader.ReadChunk | frontend/src/api/sse.ts:66-83 | one round of the outer loop, with the held CR put back |
| Reader.ReadEvents | frontend/src/api/sse.ts:57-86 | the whole loop over all chunks and the tail equals the run function that the theorems are about |
| Chunking.NormaliseAppend | frontend/src/api/sse.ts:50-54 | normalising distributes over concatenation wherever no CRLF pair is cut, which is what holding back a CR ensures |
| Chunking.BlocksAppend | frontend/src/api/sse.ts:70-76 | splitting what is left of a prefix together with more text is splitting the whole |
| Chunking.FeedAdvances | frontend/src/api/sse.ts:65-83 | after any prefix, one more chunk of any size takes the reader to the state and events of the longer prefix, and caps exactly when the unterminated rest is too long |
| Chunking.HeldCrAtEnd | frontend/src/api/sse.ts:85-86 | dropping the held CR at the end of the stream changes no event |
| Chunking.RunIgnoresChunking | frontend/src/api/sse.ts:65-86 | while the cap is silent the events depend only on the concatenated text, wherever CRLF pairs or blank lines are cut |
| Chunking.ChunkingsAgree | frontend/src/api/sse.ts:65-86 | any two chunkings of a text with short blocks give the same events |
| Chunking.SilentExactlyWhenCalm | frontend/src/api/sse.ts:77-82 | the cap stays silent under every chunking exactly when every block is shorter than the cap and the rest within it |
| Chunking.DataShorterThanBlock | frontend/src/api/sse.ts:33-43 | the joined data of a block is shorter than the block |
| Chunking.DataStaysShort | frontend/src/api/sse.ts:43-45 | whatever arrives in whatever chunks, no event holds more than the event cap and the marker |
| Chunking.CutDataShort | frontend/src/api/sse.ts:77-82 | what the cap emits is shorter than any event cut for its length |
| EventStreamStandard.LinesAreTerminatedParts | frontend/src/api/sse.ts:50-54 | the standard's lines, ended by CRLF, LF or CR, are the newline-terminated parts of the normalised text |
| EventStreamStandard.BlockAgreesExactlyWhenPlain | frontend/src/api/sse.ts:30-46 | a block gives the standard's event exactly when it has data or no type, no empty type, and no visible cut |
| EventStreamStandard.InterpretBlocks | frontend/src/api/sse.ts:69-76 | the line-by-line interpreter of section 9.2.6 dispatches, for any text, the events of the greedy blocks one after the other |
| EventStreamStandard.SameEventsExactly | frontend/src/api/sse.ts:69-86 | the events of the blocks and of what follows are the standard's exactly when every block is plain and nothing follows |
| EventStreamStandard.ReaderRefinesStandard | frontend/src/api/sse.ts:65-86 | on a whole text the reader's events are the standard's and then that of the unterminated rest |
| EventStreamStandard.ReaderIsStandardExactly | frontend/src/api/sse.ts:65-86 | for every text below the pending cap, in any chunks, the reader agrees with the standard exactly when every block is plain and the rest holds no event |
| EventStreamStandard.TailIsEmitted | frontend/src/api/sse.ts:85-86 | every data line cut off by the end of the stream is an event here and none in the standard |
| Relay.SafeStep | src/karr/api/sse.py:164-213 | every step of pump, consumer, client or clock keeps: nothing lost or repeated between upstream and frames, terminal item last, queue within its bound |
| Relay.OnTimeStep | src/karr/api/sse.py:180-194 | every step keeps: each keepalive has used up its interval |
| Relay.RelaySafety | src/karr/api/sse.py:159-213 | in every schedule: data frames an in-order prefix of the upstream; at most one terminal frame, and last; an upstream end or error only after every line; at most capacity + 2 lines ahead; one close |
| Relay.TerminalTellsWhy | src/karr/api/sse.py:164-202 | in every schedule: an end frame only if the upstream ended, an error only if it failed, with its message or "stream failed", the time limit only past the deadline; a last frame of the first two kinds is the end exactly if the upstream ended |
| Relay.EndIsTold | src/karr/api/sse.py:180-202 | a finished relay whose client did not leave has sent a terminal frame last |
| Relay.IdleIsNotSilent | src/karr/api/sse.py:180-194 | an idle client gets a keepalive after an interval before the deadline, and the time limit at it |
| Relay.QueueGetsThrough | src/karr/api/sse.py:164-202 | the pump goes on exactly while the queue has room, and before the deadline what is first in the queue is the next frame: a line as data, the end as the end, a failure as an error |
| Relay.RelayTiming | src/karr/api/sse.py:162-194 | the keepalives times their interval stay strictly below the stream limit |
| Relay.NothingAfterDeadline | src/karr/api/sse.py:181-194 | no line is dequeued and no keepalive sent after the deadline |
| Relay.NotStuckAfterDeadline | src/karr/api/sse.py:180-202 | past the deadline the consumer can always step |
| Relay.EndsAfterDeadline | src/karr/api/sse.py:180-202 | and each of its steps brings it nearer to the end, which no other party undoes |
| LogViewer.ConsumeLoop | frontend/src/components/LogStream.tsx:90-104 | the loop over events appends until a terminal one decides the phase |
| LogViewer.AppendKeepsLast | frontend/src/components/LogStream.tsx:37-43 | one append to the window of the last lines gives the window of one more line |
| LogViewer.ConsumeExactly | frontend/src/components/LogStream.tsx:90-104 | what comes before the first terminal event is shown, its last lines; that event decides the phase and nothing after it matters |
| EndToEnd.ParseFrame | src/karr/api/sse.py:46-54 | every frame the relay prints is read back as its one event, a keepalive as none |
| EndToEnd.FrameReadAs | src/karr/api/sse.py:46-54 | the event of each frame, in any chunks: a line, an error and the time limit with their escaped text, cut and marked past the cap, the end without data |
| EndToEnd.FramesRoundTrip | src/karr/api/sse.py:180-202 | frames whose text arrives in any chunks are read back as their events, in order |
| EndToEnd.CutLosesFrame | frontend/src/api/sse.ts:77-82 | whatever surrounds it, a frame past the cap is lost or cut differently when the text is cut before its last newline |
| EndToEnd.LongLineShows | frontend/src/api/sse.ts:77-82 | a data line that fills the pending cap shows its beginning, to the event cap, and the marker |
| EndToEnd.LongLineShowsPrefix | frontend/src/api/sse.ts:77-82 | of an escaped line that is the prefix whose escape fills the cut, or all but one character of it and a stray backslash, and the marker |
| EndToEnd.CutFrameShows | frontend/src/api/sse.ts:77-82 | a data frame past the cap, cut before its last newline, in the middle of others: the others are read as they are, and it shows its beginning and the marker |
| EndToEnd.CutErrorShows | frontend/src/api/sse.ts:77-82 | the same for an error frame, which keeps its type |
| EndToEnd.ReadBackExactlyWhenItFits | frontend/src/api/sse.ts:65-86 | the relay's output is read back under every chunking exactly if every frame is shorter than the pending cap |
| EndToEnd.WireTextIsStandard | src/karr/api/sse.py:46-54 | any reader of the standard reads the relay's output the same way |
| EndToEnd.ShortFits | frontend/src/api/sse.ts:15-19 | payloads within the event cap fit the pending cap once framed, at the caps as they are |
| EndToEnd.ShownWhole | frontend/src/components/LogStream.tsx:103 | a line within the cap is shown as it was |
| EndToEnd.ShownCut | frontend/src/components/LogStream.tsx:103 | a longer one as the prefix whose escape fills the cap, or all but one character of it and then a stray backslash, and the marker |
| EndToEnd.DetailIsMessage | frontend/src/components/LogStream.tsx:99-102 | the detail of an error is its message exactly if it fits and needs no escape, or is plain characters and then backslashes of together the cap's length and then the marker |
| EndToEnd.DetailCanDiffer | frontend/src/components/LogStream.tsx:99-102 | a backslash is shown as two |
| EndToEnd.ConsumeFrames | frontend/src/components/LogStream.tsx:90-104 | the events of relayed frames leave the last data lines in the window and the phase of the last frame |
| EndToEnd.ViewerFollowsRelay | src/karr/api/sse.py:146-213 | at any moment of any schedule, in any chunks, the viewer shows the last lines relayed, a prefix of the upstream |
| EndToEnd.ViewerTellsWhy | frontend/src/components/LogStream.tsx:95-102 | the phase the viewer ends in is what happened upstream: ended by the end of the log or the time limit, failed only with what is kept of the failure's message |
| EndToEnd.EndToEndFidelity | frontend/src/components/LogStream.tsx:90-104 | once the upstream is over the viewer holds exactly the last lines of the log in order and has stopped, as ended exactly if the upstream ended and did not fail |
| EndToEnd.EndToEndAsShipped | frontend/src/components/LogStream.tsx:9-43 | the same at the caps and the window size of the source |
| Chunking.OpenStream | frontend/src/api/sse.ts:65-84 | below the cap, what has been yielded at any moment is the complete blocks of what has arrived |
| MidStream.CutOff | frontend/src/api/sse.ts:65-86 | cut anywhere inside a frame: the events of the whole frames so far, and at a clean end the one its part gives |
| MidStream.ViewerMidStream | src/karr/api/sse.py:146-213 | after any part of the relay's text in any chunks, the viewer shows exactly the lines of the whole frames in it |
| MidStream.PartialData | frontend/src/api/sse.ts:30-46 | what part of a data frame is read as, at every length |
| MidStream.CutOffShowsPrefix | frontend/src/components/LogStream.tsx:103 | a stream that ends inside a data frame adds nothing to the view, or a prefix of the line with at most a stray backslash and the marker |
| StreamSlots.StreamSlotTable.constructor | src/karr/api/sse.py:74-85 | no leases, ids from one |
| StreamSlots.StreamSlotTable.EvictExpired | src/karr/api/sse.py:87-93 | leaves exactly the leases not older than the limit |
| StreamSlots.StreamSlotTable.CountOpen | src/karr/api/sse.py:95-101 | counts exactly the leases of the key, or of the key and the client |
| StreamSlots.StreamSlotTable.AcquireSlot | src/karr/api/sse.py:103-117 | the decision and the whole new table are those of the specification |
| StreamSlots.StreamSlotTable.ReleaseSlot | src/karr/api/sse.py:119-120 | removes the one lease if it is there |
| StreamSlots.SameLive | src/karr/api/sse.py:87-93 | table and eager ledger have the same live leases at any time from the last request on |
| StreamSlots.LazyIsEager | src/karr/api/sse.py:103-117 | every request in every trace is decided as by a ledger keeping all unreleased leases and counting those of age at most the limit |
| StreamSlots.DecidedExactly | src/karr/api/sse.py:103-117 | after every trace: refused for the agent exactly if its unreleased streams within the age limit reach its cap, else for the client exactly if those of that client reach the client's, else granted |
| StreamSlots.LedgerExactly | src/karr/api/sse.py:115-122 | unreleased are exactly the ids granted by some request and not given back since, with the agent, client and time of that request |
| StreamSlots.OtherAgentsDoNotCount | src/karr/api/sse.py:95-107 | streams of other agents change no decision |
| StreamSlots.OtherClientsFillOnlyTheAgent | src/karr/api/sse.py:95-114 | streams of other clients change a decision only through the agent's cap |
| StreamSlots.CapsHold | src/karr/api/sse.py:107-114 | after every trace at most so many leases carry one key, and at most so many one key and one client |
| StreamSlots.IdsAreNotReused | src/karr/api/sse.py:115-117 | an id once given out and gone never comes back |
| StreamSlots.ReleasedStaysReleased | src/karr/api/sse.py:119-122 | a repeated release changes nothing, whatever happened in between |
| StreamSlots.ReleaseFreesOnlyItsOwn | src/karr/api/sse.py:115-122 | whenever it runs, a callback's id names its own lease or none |
| Connection.SoundStep | src/karr/api/sse.py:232-242 | every step of relay, response and other connections keeps the calls accounted for |
| Connection.CalledOnceExactly | src/karr/api/sse.py:203-242 | in every run, an ended connection has called its callback once if its relay was never started and twice otherwise, and a running one at most once |
| Connection.EndedConnectionHoldsNoSlot | src/karr/api/sse.py:115-122 | from the first call on, and so after the end, the connection holds no slot and another call would free nothing |
| Connection.OneCallAndTwo | src/karr/api/sse.py:219-224 | a run with one call and a run with two |
| TokenBuckets.TokenBucket.constructor | src/karr/api/ratelimit.py:21-27 | a new bucket is full |
| TokenBuckets.TokenBucket.TryAcquire | src/karr/api/ratelimit.py:29-38 | refill, cap and take, as the specification does |
| TokenBuckets.TokenBucket.Wait | src/karr/api/ratelimit.py:40-45 | the waiting time of the specification |
| TokenBuckets.TokensInRange | src/karr/api/ratelimit.py:31-37 | tokens stay between zero and the capacity over every run |
| TokenBuckets.AllowedInSpan | src/karr/api/ratelimit.py:29-38 | over any span a bucket allows at most its capacity plus the refill of the span |
| TokenBuckets.ExactSinceFull | src/karr/api/ratelimit.py:29-38 | since it was last full a bucket holds exactly capacity plus refill minus what it allowed |
| TokenBuckets.RefusalIsEarned | src/karr/api/ratelimit.py:35-38 | a refusal means more than capacity - 1 plus the refill since it was last full were allowed since then |
| TokenBuckets.WaitIsExact | src/karr/api/ratelimit.py:40-45 | a call that much later succeeds, and any earlier one does not |
| TokenBuckets.NoWaitExactly | src/karr/api/ratelimit.py:40-45 | the waiting time is never negative, and zero exactly if there is a token or none will ever come |
| TokenBuckets.RetryIsExact | src/karr/api/ratelimit.py:29-45 | a call refused now is allowed d later exactly when d reaches the waiting time |
| TokenBuckets.PollingDoesNotDelay | src/karr/api/ratelimit.py:29-45 | asking again early, however often, neither succeeds nor moves the moment of the next token |
| TokenBuckets.RetryAfterExactly | src/karr/api/ratelimit.py:90 | the header is the smallest whole number, at least one, that is short of the wait by less than a millisecond |
| TokenBuckets.RetryAfterIsClose | src/karr/api/ratelimit.py:90 | the header is short of the wait by less than a millisecond and over by less than a second |
| TokenBuckets.RetryAfterSufficesExactly | src/karr/api/ratelimit.py:87-90 | a client that waits as told is served exactly when the wait is at most a second, whole, or a millisecond past a whole second |
| TokenBuckets.RetryAfterCanFallShort | src/karr/api/ratelimit.py:90 | 2.0005 seconds give the header 2 |
| RateLimiting.RateLimiter.constructor | src/karr/api/ratelimit.py:55-66 | no clients |
| RateLimiting.RateLimiter.Evict | src/karr/api/ratelimit.py:75-76 | the popping loop keeps the newest max_clients entries in order |
| RateLimiting.RateLimiter.Touch | src/karr/api/ratelimit.py:71-78 | the client's bucket moves to the end, or a new full one is added there and the oldest go |
| RateLimiting.RateLimiter.TryAcquire | src/karr/api/ratelimit.py:68-80 | table, decision and wait are those of the specification on lists of entries |
| RateLimiting.RateLimiter.Reset | src/karr/api/ratelimit.py:82-84 | empties the table |
| RateLimiterRuns.TableIsMostRecent | src/karr/api/ratelimit.py:70-79 | after any run the table holds the most recently used distinct keys since the reset, in order of last use |
| RateLimiterRuns.OrderIsByLastUse | src/karr/api/ratelimit.py:70-79 | in that order, what follows a key is exactly what was used after it |
| RateLimiterRuns.HeldExactlyWhenRecent | src/karr/api/ratelimit.py:75-78 | a client has a bucket exactly when fewer than max_clients others were served since it last was |
| RateLimiterRuns.ServedIsKept | src/karr/api/ratelimit.py:70-79 | the key just served is last in the table and never the one evicted, exactly when max_clients is at least one |
| RateLimiterRuns.Coupling | src/karr/api/ratelimit.py:29-38 | the bounded bucket lags behind a dedicated one by at most what it allowed more |
| RateLimiterRuns.EvictionNeverHurts | src/karr/api/ratelimit.py:68-80 | for every run and client, the limiter allows at least as many requests in total as a bucket of the client's own, never evicted |
| RateLimiterRuns.EvictionGivesAtMost | src/karr/api/ratelimit.py:68-80 | with a clock that does not go back, it allows at most one capacity more in total for each time the bucket was made anew |
| RateLimiterRuns.ReportedWaitIsExact | src/karr/api/ratelimit.py:79-80 | the wait a refusal reports is exact: with no other request between, the client is allowed from then on and not earlier |
| Registrations.RegistrationService.ExpirePending | src/karr/services/registrations.py:105-115 | flips exactly the pending rows past their expiry |
| Registrations.RegistrationService.NewRegistration | src/karr/services/registrations.py:61-89 | expire first; no usable token when the command cannot be rendered |
| Registrations.ProvisionExactly | src/karr/services/registrations.py:61-89 | which provision is refused and why, the row a successful one stores, and that other rows at most expire |
| Registrations.ListedAndDeletedExactly | src/karr/services/registrations.py:91-115 | a listing writes down every expiry and shows pending exactly what can be claimed; a delete removes one row, if it is there |
| Registrations.ProvisionGrantsExactly | src/karr/services/registrations.py:61-89 | a provision makes exactly its own token claimable, exactly until its time is over and only if the command renders; every other token stays as claimable as it was |
| Registrations.UsableExactly | src/karr/services/registrations.py:61-131 | whatever happens to others, a provisioned token is served later exactly if that is before its expiry, its row was not deleted and it was not claimed |
| Registrations.RegistrationService.Claim | src/karr/services/registrations.py:133-210 | claim, checks, insert and link with their rollbacks end in the all-or-nothing transaction of the specification |
| Registrations.RegisterExactly | src/karr/services/registrations.py:142-190 | a register succeeds exactly if the row is pending and unexpired, the host safe, its URL valid and the name free; else the first that fails is named and nothing changes |
| Registrations.ExpiryIsInvisible | src/karr/services/registrations.py:105-131 | with a clock that does not go back, expiry steps anywhere in a trace change no outcome |
| Registrations.LookupForetellsClaim | src/karr/services/registrations.py:117-131 | the install script is served exactly when the claim would match at that instant; not found means no row, gone a row that is claimed or past its time |
| Registrations.FailureKeepsToken | src/karr/services/registrations.py:158-190 | a failed register changes nothing and its token can be claimed until it expires |
| Registrations.LinksAreExact | src/karr/services/registrations.py:169-183 | after any trace each linked row is claimed, its agent exists and is its alone, and names are unique |
| Registrations.RegisterAddsOneAgent | src/karr/services/registrations.py:142-183 | a successful register adds exactly one new agent, linked to its row, and touches nothing else |
| Registrations.RemovedAgentIsUnlinked | src/karr/db/models.py:163-167 | an agent that goes leaves its own row claimed and linked to none, and every other row as it was |
| Registrations.ClaimedAtMostOnce | src/karr/services/registrations.py:142-156 | over any trace a token is claimed at most once |
| Registrations.FinalStates | src/karr/services/registrations.py:105-115 | claimed and expired are final, and a deleted token never returns |
| BodyLimit.BodyLimitMiddleware.CountingReceive | src/karr/api/middleware.py:164-174 | counts, and hands over a disconnect past the limit |
| BodyLimit.BodyLimitMiddleware.TrackingSend | src/karr/api/middleware.py:176-184 | drops what is sent past the limit before a start, passes on everything else |
| BodyLimit.BodyLimitMiddleware.Call | src/karr/api/middleware.py:151-204 | the whole call around any application equals the specification |
| BodyLimit.NeverPastTheLimit | src/karr/api/middleware.py:164-174 | the application gets at most the limit, and once it is passed nothing more is read |
| BodyLimit.DeliveredExactly | src/karr/api/middleware.py:164-174 | the application gets each message it asks for as long as all so far are within the limit, and a disconnect for every later one |
| BodyLimit.DeclaredTooLarge | src/karr/api/middleware.py:155-158 | a request declared too large is answered 413 and never seen by the application; every other is handed to it |
| BodyLimit.TransparentWithinLimit | src/karr/api/middleware.py:186-190 | within the limit the middleware changes nothing, exceptions included |
| BodyLimit.RejectedBeforeStart | src/karr/api/middleware.py:191-199 | past it before a response started: what was sent by then and one 413, no exception |
| BodyLimit.KeptAfterStart | src/karr/api/middleware.py:188-197 | past it after a start: the response goes out as sent, no exception |
| BodyLimit.OneResponse | src/karr/api/middleware.py:155-199 | for an application that keeps the protocol the wire is exactly one 413, if the request is declared too large or passes the limit before a response started, and else exactly what it sent |
| Environments.EnvironmentTable.ReconcileRow | src/karr/services/environments.py:253-270 | one row becomes its specification, and is reported changed exactly when it changed |
| Environments.EnvironmentTable.ReconcileAgent | src/karr/services/environments.py:230-273 | the loop equals the pointwise specification and returns exactly the number of rows changed |
| Environments.EnvironmentTable.ReconcilePass | src/karr/services/reconcile.py:72-77 | the pass over all agents, with the exact number of rows changed |
| Environments.ReconciledExactly | src/karr/services/environments.py:230-295 | a create past its grace takes the last container of its name, a bound row the state of the last with its id; without one they are in error; every other row stays |
| Environments.SecondRunExactly | src/karr/services/environments.py:252-270 | a second run on the same list and time leaves a row alone exactly unless an adopted id is shared by a container of another state |
| Environments.SecondRunCanChange | src/karr/services/environments.py:240-270 | two containers with one id: running after the first run, stopped after the second |
| Environments.SecondRunChangesNothing | src/karr/services/environments.py:230-273 | with unique container ids the second run changes nothing |
| Environments.AppliesCommute | src/karr/services/reconcile.py:41-48 | the applications of two agents commute |
| Environments.PassIsPointwise | src/karr/services/reconcile.py:50-74 | what a pass does to a row depends on its own agent's visit alone |
| Environments.PassOrderIrrelevant | src/karr/services/reconcile.py:72-74 | the same visits in any order give the same rows |
| Environments.SkippedAgentIsIsolated | src/karr/services/reconcile.py:50-70 | an agent that fails before its apply leaves its rows as they were and changes nothing for the others |
| Lifecycle.GoodStep | src/karr/services/environments.py:94-287 | every step of every party keeps the invariant, and rows only evolve |
| Lifecycle.LifecycleInvariant | src/karr/services/environments.py:94-287 | after every run: creating rows have no container and no message, running and stopped rows a container and no message, error rows a message |
| Lifecycle.RowsEvolve | src/karr/services/environments.py:140-144 | from any moment to any later one a container id once set is never cleared, no row returns to creating, no deleted row comes back |
| Lifecycle.BindingIsInjective | src/karr/services/environments.py:256-261 | two rows of one agent never hold the same container, bound by create or adopted by name |
| Lifecycle.FreshListTellsTruth | src/karr/services/environments.py:264-270 | a list applied at once leaves every bound row agreeing with the host: running, stopped, or missing |
| Lifecycle.FreshListSettlesCreate | src/karr/services/environments.py:253-263 | a create past its grace ends bound to a live container of its name if there is one, else marked as never completed |
| LifecycleRuns.ShieldedStep | src/karr/services/environments.py:38-43 | every step of anyone leaves each create in flight, while it is young, alone with its untouched row |
| LifecycleRuns.YoungCreateKept | src/karr/services/environments.py:163-190 | within its own grace, whatever happens elsewhere: no other request is about the row, nothing changes it, and it is gone exactly if its own agent was deleted with its rows |
| LifecycleRuns.RowGoneExactly | src/karr/services/environments.py:185-211 | a create has lost its row exactly if since its insert its agent was deleted with its rows, or a removal asked for past the grace went through |
| LifecycleRuns.AcceptedCreateEndsStopped | src/karr/services/environments.py:140-145 | a create the host accepted ends bound to its container and stopped exactly if it has not lost its row |
| LifecycleRuns.LiveMarkedMissingExactly | src/karr/services/reconcile.py:45-48 | whatever happens between list and apply, a bound row is marked missing exactly if its container was not there at the list; if it is there at the apply, exactly if the host made it in between |
| LifecycleRuns.RemovalDropsLiveExactly | src/karr/services/environments.py:185-211 | a removal that goes through leaves the row's container behind exactly if it was there or made since, no one else took it, and, if it is the one asked about, the row already said missing and the host failed |
| LifecycleRuns.DeletionDropsLiveExactly | src/karr/services/agents.py:76-112 | a deletion of an agent, read, host calls and transaction with anything in between, drops the row of a container that stays exactly if the container was not among those read, was there or made since, and no one took it |
| LifecycleRuns.LostAnswerLeavesContainer | src/karr/services/environments.py:136-139 | a container made although the create ended in an error is held by no row as long as the error row is there, whatever anyone does |
| LifecycleAnswers.MoveEndsAsAsked | src/karr/services/environments.py:163-178 | a start or stop the host carries out, with anything in between: only the container the row held when asked is set running or not, and the row, if still there, ends running or stopped without a message |
| LifecycleAnswers.FailedMoveEndsInError | src/karr/services/environments.py:172-175 | one the host refuses changes no container, and the row ends in error with the reason |
| LifecycleAnswers.RemovalEndsAsAnswered | src/karr/services/environments.py:192-211 | a removal the host carries out takes away only the container the row held when asked, and the row |
| LifecycleAnswers.FailedRemovalEnds | src/karr/services/environments.py:197-209 | one it refuses changes no container; the row goes if it said its container was missing when asked, and else ends in error with the reason |
| LifecycleAnswers.UnboundRemovalEnds | src/karr/services/environments.py:192-211 | a row without a container is dropped without asking the host |
| LifecycleAnswers.CreateEndsAsAnswered | src/karr/services/environments.py:126-145 | a create the host accepts makes one stopped container of the name, and the row, if still there, ends stopped and bound to it |
| LifecycleAnswers.RefusedCreateEndsInError | src/karr/services/environments.py:119-139 | one that is refused makes none, and the row ends in error with the reason |
| LifecycleAnswers.DeletionEndsAsRead | src/karr/services/agents.py:76-112 | a deletion reaches its transaction exactly if every container read was removed and none failed; it drops the agent and all its rows if it read any, and else no row, and the agent exactly if it still has none |
| LifecycleFailures.ForceDeleteLeavesOrphan | src/karr/services/agents.py:102-105 | a force delete during a create can leave a container without a row |
| LifecycleFailures.BoundDuringDeleteLeavesOrphan | src/karr/services/agents.py:77-105 | so can one that read the row before its create bound it |
| LifecycleFailures.SlowCreateLeavesOrphan | src/karr/services/environments.py:187-210 | so can a removal during a create slower than the grace |
| LifecycleFailures.StaleRemovalLeavesOrphan | src/karr/services/environments.py:197-209 | so can a removal that believes a list from before the create, although nothing is slow, lost or force deleted |
| LifecycleFailures.MissingCanBeStale | src/karr/services/reconcile.py:45-48 | a row can be marked missing while its container lives |
| EnvironmentRequests.EnvironmentService.BeginCreate | src/karr/services/environments.py:80-117 | which requests are refused and why, a name exactly if a row of the agent has it; any other is, in whatever world it finds, the insert step |
| EnvironmentRequests.EnvironmentService.AnswerCreate | src/karr/services/environments.py:119-139 | host, refusal or missing client: the matching step from any world |
| EnvironmentRequests.EnvironmentService.FinishCreate | src/karr/services/environments.py:137-153 | the last write as a step from any world, and the response: created only if the row is still there to be read back |
| EnvironmentRequests.EnvironmentService.BeginTransition | src/karr/services/environments.py:161-167 | the transition table: what is refused, and the asking step otherwise |
| EnvironmentRequests.EnvironmentService.AnswerTransition | src/karr/services/environments.py:168-175 | the host's answer as a step; without a client the request ends and nothing is written |
| EnvironmentRequests.EnvironmentService.FinishTransition | src/karr/services/environments.py:175-178 | the last write and the response as a step |
| EnvironmentRequests.EnvironmentService.BeginRemove | src/karr/services/environments.py:185-191 | the guard on creates in flight, and the asking step otherwise |
| EnvironmentRequests.EnvironmentService.AnswerRemove | src/karr/services/environments.py:192-208 | the host's answer as a step; a failure counts as done if the row said missing |
| EnvironmentRequests.EnvironmentService.FinishRemove | src/karr/services/environments.py:199-211 | the last write and the response as a step |
| AgentDelete.AgentService.RemoveContainers | src/karr/services/agents.py:116-139 | the loop asks for every bound container and returns the failed names in order |
| AgentDelete.AgentService.Delete | src/karr/services/agents.py:68-114 | every branch of a delete, whatever others make of table and host meanwhile: outcome, rows, agents and host |
| AgentDelete.OutcomeExactly | src/karr/services/agents.py:68-139 | which answer a delete gives, of all it can: unknown agent, its environments counted, a container that could not be removed, gained environments, deleted |
| AgentDelete.GainedExactly | src/karr/services/agents.py:102-112 | a delete that reaches its transaction is refused exactly if the agent gained an environment that is not swept up, and then every row is kept |
| AgentDelete.ArrivalLeavesContainer | src/karr/services/agents.py:95-105 | a deletion that sweeps up an arrival and leaves its container |
| AgentDelete.BoundAfterReadLeavesContainer | src/karr/services/agents.py:77-105 | a deletion of a row read unbound and bound by the end |
| AgentDelete.PlainDeleteExactly | src/karr/services/agents.py:86-112 | without force an agent is deleted exactly if it exists and has no environments, at the read or by the end, and table and host are otherwise as others left them |
| AgentDelete.DeletedLeavesExactly | src/karr/services/agents.py:76-108 | success leaves no row of the agent and every other row; every container read is gone, and of those the dropped rows hold exactly those stay that were not read and no one took |
| AgentDelete.RefusedNamesExactly | src/karr/services/agents.py:96-101 | a refused force delete leaves the table as others made it, names exactly the environments whose container could not be removed, and every other container read is gone |
| AgentDelete.RefusedInOrder | src/karr/services/agents.py:116-139 | and in the order of the table, each row once |
| AgentDelete.RetrySucceeds | src/karr/services/agents.py:131-138 | a retry goes through once the host fails no removal, unless the agent gained an environment meanwhile |

## Left out

- Wire format below characters: UTF-8 decoding, HTTP, abort signals; a JavaScript string is counted in UTF-16 units, the model in characters, so a cap could also cut between two halves of one character.
- Viewer: reconnecting with backoff, the restart marker, React state and failed responses; a clean end inside a terminal frame is stated only as the events of its part (`CutOff`).
- Relay: cancellation and garbage collection are one step of the client leaving; a relay that was never started never closes by itself, which `Connection` covers with the response's own call; dequeue and timeout are exclusive; a queue of capacity zero, which asyncio takes for unbounded, is not modelled as such.
- Error messages of the relay are parameters; how an exception becomes a message is not modelled.
- Floating point: seconds and tokens are reals.
- The limiter's lock: a call is atomic and reads the clock once (a bucket made an instant before it is drawn from is still full); the clock never goes back.
- Slot logging, metrics and the log route's own checks.
- Registrations: a token hash stands for its token and random tokens are fresh; label stripping, host and URL checks, rendering and encryption are outcomes; integrity errors other than the unique name, the registry update after the commit, and the caller's address are not modelled; each transaction is atomic, the claim holding its row lock to the end.
- Environments: project, image, mounts and command of a row; a foreign-key violation between check and insert; BONNIE ids are fresh and non-empty and a container carries the requested name; one clock for row times and ages; each committed write is one step, so partial-column updates and isolation levels are not modelled.
- EnvironmentRequests.EnvironmentService.BeginCreate: the row id is chosen by the caller of the model, as the database chooses it; the project check and a foreign-key violation at the insert are not modelled.
- LifecycleRuns.AcceptedCreateEndsStopped: says what the last write does once it happens; a crash before it leaves a row that reconciliation later adopts or marks, `FreshListSettlesCreate`.
- Reconciling one agent is one atomic step against one clock reading, and a failure after its commit is not modelled; the semaphore and timeouts appear only as the order and outcome of the visits.
- AgentDelete.AgentService.Delete: in `Lifecycle` the transaction of a deletion is one step; rows committed inside it are modelled here only.
- LifecycleRuns.LostAnswerLeavesContainer: a removal of the error row frees its name, and a later create of that name that crashes can adopt the container.
- Body limit: declared lengths are a parsed number or none, message kinds other than request bodies and response starts only pass through, and a client that closes early is not modelled.
- Routers, schemas, the error envelope, the command line, configuration, migrations, metrics, projects, seeding, the background loop of the reconciler and its health check: plumbing or one-branch facts.
