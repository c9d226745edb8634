# Meshloom: a verified model of the radio, queue and packet logic

Meshloom drives a MeshCore radio from a host: it keeps the radio's clock and contact table
right, encrypts and recognises channel messages, streams events to browsers over
WebSockets, raises telemetry alerts and keeps secrets out of the logs. This project models
the parts of it where several operations have to agree over a whole run, and proves what
they keep. `dafny verify dfyconfig.toml` checks everything.

How the modules are built: each operation that updates state in place is a method of a class
and is proved equal to a function of the old state; the promises are then lemmas about that
function over every input, every run or every reachable state. The radio, the network, the
clocks and the database answer through parameters, so every result holds for all their answers.

| module | models | main results |
|---|---|---|
| `ClockGuards` | which recovery step a clock sync may take | safety of every run, over all radios and connections; exactly which connections can be wrapped twice |
| `ClockWrap` | the uint32 wraparound against a ticking radio | success means the right time; the exact bound on round trips below which it always succeeds; exactly which overflows are caught from the edge |
| `ContactReconcile`, `RadioTable` (with `ContactCommands`) | the two-commands-per-lock loop over the contact table | safety of every lock hold, bound, convergence in ceil(gap / 2) holds, exactly when it converges against a radio that refuses removals, and what completion says about the radio's own table |
| `AutoevictFill` | the blind refill with bounded retries | ends within three passes; exactly when "complete" can be trusted |
| `ContactSelection` | which contacts belong on the radio | the fill is a prefix of one deduplicated list |
| `WebSocketQueues` | per-client queues, shedding, eviction, drop counts | ordered delivery and conservation in every reachable state; exactly when departed clients have reported everything |
| `SlotCache` | the channel-to-slot cache | inverse maps and LRU order in every session; exactly which events keep it true of the radio |
| `SecretScrubbing`, `WholeSecrets`, `SecretScopes` | literal secrets in log lines | exact condition for a form to be gone from every text; secrets are replaced whole; reference counts over any overlap |
| `PacketFraming`, `HashBackfill` | envelope, packet hash, migration 5 | parser and printer are inverse; the lowest id of each hash class is kept |
| `GroupText` (with `Utf8`, `Bytes`, `Text`) | channel messages | decryption undoes encryption, over any block cipher; the two splitters agree |
| `ExpandedKeySigning` | Ed25519 with expanded keys | exactly which signatures verify, over any group |
| `ContactRoutes` | stored and typed routes | exact condition for idempotence; typed hops are recovered |
| `AlertRules`, `TelemetryLatches` | layered rules, alert latches | last set value wins; exactly when each rule alerts |

## Where the code does less than its prose

The model follows the code. For each difference there is a failing input or run, and a lemma that
says when the promise holds.

- Clock recovery: the wraparound is promised once per connection (`app/radio_sync.py:935-936`), but one
  latch remembers only the last connection. `WrapsOncePerConnectionIff` says for every sequence of connections
  whether some run on it wraps one of them twice: exactly when one comes back after another, late enough for
  three reboots to have gone before. `WrappedTwiceOnOneConnection` builds that run.
- Wraparound: "always succeeds" below the edge holds for answered commands exactly when their round trips are
  bounded by 2000 ms (`AlwaysFixesIff`). `SlowLinkFails` is about a link that answers everything: a poll reads one
  millisecond before the overflow, its answer takes 2001 ms, and the three seconds of waiting are over.
- Wraparound: a radio already within an hour of the edge is not set first. On such links an overflow is always
  caught up to 1000 ms away, sometimes below 5200 ms, and never from there on (`AlwaysCaughtIff`, `EverCaughtIff`).
- Reconcile: against a radio that keeps refusing some removals, all desired contacts get loaded exactly
  when at most one undesired tracked contact is refused (or none was missing), and the loop completes
  exactly when none is (`ConvergesIff`); in `StarvingRun` two refused contacts keep a third out for any number of holds.
- Reconcile: a removal names the cached contact that shares the first 12 characters of the key.
  `AlwaysSparesIff` says exactly when that is never a desired contact; `CollisionLosesDesired` is a pair for
  which it is, and the table then says that it is there.
- Reconcile: completion is about the tracked table. With a fixed desired set it also means that the radio holds
  exactly the desired contacts, whatever answers were lost (`RadioTable.CompleteMeansLoaded`); with a changing one a
  removal that was carried out but not answered can be forgotten (`LostRemovalForgotten`).
- Autoevict: the docstring (`app/radio_sync.py:1506-1513`) speaks of one successful full pass, but
  the failure flag is reset for every batch (`app/radio_sync.py:1563`), so a failure in an earlier
  batch is forgotten. `CompleteTrustedIff`: "complete" means "all loaded" exactly for lists of at most two.
- Slot cache: some writes pass it by: a restore write that was not accepted, a configure that comes back
  without a result, sends with reuse off, the slot the mesh test borrows. `StepCoherentIff`: the cache stays
  true of the radio exactly when such a write hits an unclaimed slot or leaves the cached key there; four
  runs break it (`LostRestoreBreaks`, `NoResultBreaks`, `ToggledReuseBreaks`, `SendBeforeBorrowBreaks`), and
  after a reset only what follows counts (`ResetRestoresTrust`).
- WebSocket: a departed client has logged all its drops, except one that a new connection of the same socket
  replaced while it had some to report. `AllReportedIff`: in every run all are logged exactly when no connect meets
  such a client; `SpillingRun` reaches one. `connect` awaits the library's `accept()` first, so a second connect of
  one socket depends on the library allowing it.
- Scrubbing: a registered form that occurs inside the marker itself is never removed (`HiddenInMarker`,
  `AlwaysGoneIff`; `SingleFormGoneIff` for any single form, brackets included), and of two overlapping secrets the second is cut (`OverlapCutsSecret`).
- Signing: the library ignores the top bit of a scalar, the signature does not. `SignaturesVerify` and
  `TopBitBreaksSignatures` say exactly which signatures verify.
- Typed routes: 64 one-byte hops are accepted and then read as a packed byte, which empties the route
  (`ExplicitRoutes`, `TypedHops`). `IdempotentIff` gives every row that normalization does not settle.

## Model

| member | source | states |
|---|---|---|
| ClockGuards.HistorySafe | app/radio_sync.py:1195-1303 | Over every run of clock syncs, across radios, connections and settings: per radio key at most one sent reboot and one wraparound, in that order; "unknown" is never wrapped; nothing happens below the host clock floor; wraps need the one-year and ten-year margins; no wrap on the connection of the wrap before it. |
| ClockGuards.SafeStep | app/radio_sync.py:1195-1303 | One call, whatever the radio and the settings answer, keeps the safety of any history. |
| ClockGuards.ActionsOnShape | app/radio_sync.py:929-943 | The actions on one key in a safe history are none, a reboot, or a reboot then a wrap; "rebooted before" and "wrapped before" hold exactly when the list has at least one, or two, actions. |
| ClockGuards.RadioActionsBounded | app/radio_sync.py:929-943 | All a run ever does to one radio: nothing, one reboot, or one reboot and then one wraparound (never for "unknown"). |
| ClockGuards.WrappedTwiceOnOneConnection | app/radio_sync.py:1262-1295 | For every sequence of connections in which one comes back late enough: calls on exactly those connections that wrap it twice. |
| ClockGuards.WrapsOncePerConnectionIff | app/radio_sync.py:935-936 | For a sequence of connections, every run of calls on them, whatever the radios answer, wraps each connection at most once, exactly when there are no i < j < k with i >= 1, j >= 3, k >= 5 where the i-th and k-th connection are the same and the j-th is another. |
| ClockGuards.SyncGuards.constructor | app/radio_sync.py:941-989 | The latches start empty and the floor is the later of 2026-01-01 and the build time. |
| ClockGuards.SyncGuards.SyncRadioTimeOutcome | app/radio_sync.py:1153-1303 | The three latches implement the history-only specification: same actions, same outcome, and each latch stays exactly what the history says. |
| ClockGuards.SyncGuards.Serve | app/radio_sync.py:1153-1303 | A process lifetime of arbitrary calls ends with the specified history, which is safe. |
| ClockWrap.ReadBack | app/radio_sync.py:1114-1133 | A clock set to the host's second and read back differs from the host by exactly the lag of the two deliveries, and is never more than one second ahead. |
| ClockWrap.LagBounds | app/radio_sync.py:1114-1133 | The lag is within the five-second tolerance when the two deliveries take at most four seconds, and is not when they take seven or more. |
| ClockWrap.SetBackIff | app/radio_sync.py:1114-1138 | The last leg succeeds exactly when both answers arrive, the radio takes the time and the lag of the deliveries is within tolerance; then the radio is within five seconds of the host. |
| ClockWrap.FixedMeansRight | app/radio_sync.py:1071-1138 | An attempt that reports success leaves the radio within five seconds of the host, over every link. |
| ClockWrap.WaitCatches | app/radio_sync.py:1059-1068 | With round trips of at most 2000 ms the wait sees every overflow that comes two seconds before its deadline. |
| ClockWrap.WaitMisses | app/radio_sync.py:1059-1068 | It sees none that comes 2.2 seconds or more after it. |
| ClockWrap.SlowLinkFails | app/radio_sync.py:1059-1138 | A link that answers every command, one of them after 2001 ms, and fails from every moment below the edge. |
| ClockWrap.AlwaysFixesIff | app/radio_sync.py:1071-1138 | Below the edge every link whose commands are all answered in less than B ms fixes the clock, from every plausible moment, exactly when B <= 2001. |
| ClockWrap.AlwaysCaughtIff | app/radio_sync.py:1090-1138 | From the edge on, every such link fixes the clock exactly when the overflow is at most 1000 ms away. |
| ClockWrap.EverCaughtIff | app/radio_sync.py:1090-1138 | Some such link does exactly when the overflow is less than 5200 ms away. |
| ClockWrap.Link.Poll | app/radio_sync.py:1062-1066 | Sleep 200 ms and ask once, as specified. |
| ClockWrap.Link.SetTime | app/radio_sync.py:1090-1099 | The radio accepts exactly the times not before its own at arrival; an accepted time is its reading from then on, also when the answer is lost. |
| ClockWrap.Link.GetTime | app/radio_sync.py:1022-1033 | An answered query returns the count at arrival, modulo 2^32, and changes nothing. |
| ClockWrap.Link.WaitForClockWrap | app/radio_sync.py:1059-1068 | The poll loop computes the specified wait, and touches the radio's clock in no way. |
| ClockWrap.Link.SetBackToHost | app/radio_sync.py:1114-1138 | The last leg computes the specified one. |
| ClockWrap.Link.AttemptClockWraparound | app/radio_sync.py:1071-1138 | The attempt is the specified function of the link; success means within five seconds of the host, whatever was lost or late. |
| ContactReconcile.RemovePhaseKeeps | app/radio_sync.py:1586-1600 | The removal phase sends only removals of undesired keys within the budget, loses no desired key, and with budget left has tried every undesired key. |
| ContactReconcile.RemovePhaseCounts | app/radio_sync.py:1586-1600 | With a radio that refuses some keys, each removal takes one undesired key away or is spent on a refused one, no key twice; refused and missing keys stay the same. |
| ContactReconcile.AddPhaseKeeps | app/radio_sync.py:1669-1722 | The fill phase sends only adds of desired untracked keys within the budget, only extends the table, and does nothing without budget. |
| ContactReconcile.AddPhaseCounts | app/radio_sync.py:1669-1722 | While adds succeed, each command closes at least one missing key; with budget left none is missing. |
| ContactReconcile.HoldSafe | app/radio_sync.py:1575-1722 | One lock hold: at most two commands; removals are meant for undesired tracked keys only; only desired keys appear; anything added means every undesired key was tried first. |
| ContactReconcile.RemovalsNameTheirKey | app/radio_sync.py:1471-1475 | When no two tracked or cached keys share their first 12 characters, every removal names the contact it is meant for. |
| ContactReconcile.AlwaysSparesIff | app/radio_sync.py:1471-1475 | No lock hold over given tracked and cached keys ever asks to remove a desired contact, exactly when no undesired tracked key shares its prefix with a desired cached contact. |
| ContactReconcile.CollisionLosesDesired | app/radio_sync.py:1471-1475 | A colliding pair: the desired contact is removed and then counted as present. |
| ContactReconcile.HoldBounded | app/radio_sync.py:1575-1722 | With no failed removal the table is at most as large as before or as the desired set. |
| ContactReconcile.HoldProgress | app/radio_sync.py:1575-1722 | With successful commands the symmetric difference shrinks by at least the number of commands, and is empty when budget is left. |
| ContactReconcile.HoldCounts | app/radio_sync.py:1575-1722 | With a radio that refuses some removals: stuck keys stay; two of them take the whole budget, so nothing is added; with at most one, the work left shrinks or is none. |
| ContactReconcile.LoopBounded | app/radio_sync.py:1522-1782 | Over a whole run with a changing desired set and no failed removal, every intermediate table stays within the larger of the initial and the desired sizes. |
| ContactReconcile.LoopConverges | app/radio_sync.py:1522-1782 | With a fixed desired set and successful commands, ceil(gap / 2) lock holds make the tracked keys the desired keys, any turn after them reports completion, and busy turns cost nothing. |
| ContactReconcile.CompleteMeansSettled | app/radio_sync.py:1544-1559 | The turn that reports completion is one whose desired keys are the tracked keys. |
| ContactReconcile.RefusedRemovalsStarve | app/radio_sync.py:1586-1602 | Undesired keys the radio will not let go stay and keep the loop running; two of them, anywhere in the table, keep every missing key out forever. |
| ContactReconcile.ConvergesIff | app/radio_sync.py:1522-1782 | Against a radio that refuses to remove a fixed set of keys, in every run with enough lock holds: all desired keys end up tracked iff at most one tracked undesired key is refused or none was missing; completion is reported iff none is. |
| ContactReconcile.StarvingRun | app/radio_sync.py:1586-1602 | For every n, n lock holds in which two refused contacts keep the table unchanged and the third one out. |
| RadioTable.HoldAgrees | app/radio_sync.py:1575-1722 | A lock hold keeps the agreement of the tracked table with the radio's own (tracked desired contacts are there, and all else there is tracked), whatever the radio refuses or leaves unanswered, with a true cache and no shared prefixes. |
| RadioTable.CompleteMeansLoaded | app/radio_sync.py:1522-1782 | With a fixed desired set, when the loop reports completion the radio's own table is exactly the desired contacts, whatever answers were lost. |
| RadioTable.LostRemovalForgotten | app/radio_sync.py:1522-1782 | With a changing one: a removal carried out but not answered, the contact desired again, completion reported and the contact not there. |
| ContactReconcile.Reconciler.HoldLock | app/radio_sync.py:1575-1722 | The two budgeted loops over the mutated table compute the lock hold of the specification. |
| ContactReconcile.Reconciler.RemoveContact | app/radio_sync.py:1458-1497 | The removal names the cached contact of the key's prefix; only a success, or "not found", drops the key from the table and the cache. |
| ContactReconcile.Reconciler.RemoveUndesired | app/radio_sync.py:1586-1600 | The removal loop computes the removal phase. |
| ContactReconcile.Reconciler.AddMissing | app/radio_sync.py:1669-1722 | The fill loop computes the fill phase. |
| ContactReconcile.Reconciler.TakeTurn | app/radio_sync.py:1522-1782 | One pass of the loop with its exits, as specified. |
| ContactReconcile.Reconciler.Run | app/radio_sync.py:1522-1782 | The loop with its transport, quick-exit, busy and table-full exits computes the specified run. |
| AutoevictFill.HoldSends | app/radio_sync.py:1602-1668 | A lock hold sends the next slice in order, keeps the log a sequence of whole passes, and lowers the holds left. |
| AutoevictFill.FillEnds | app/radio_sync.py:1760-1778 | From any point of a pass, whatever the radio answers, the run is over after the holds left of three passes. |
| AutoevictFill.FillEndsWithinThreePasses | app/radio_sync.py:1519-1521 | With a fixed list of n contacts, 3 * ceil(n / 2) non-busy lock holds always end the run. |
| AutoevictFill.FillLog | app/radio_sync.py:1602-1668 | What goes out is whole passes over the desired list, each contact once, in order, favorite bit cleared; only a full table or the end of the run cuts a pass short. |
| AutoevictFill.NoFailureLoadsAll | app/radio_sync.py:1602-1668 | If no add failed, there is exactly one pass and it loaded every desired contact. |
| AutoevictFill.ForgottenFailure | app/radio_sync.py:1563-1563 | For every list of three or more contacts there is a run that reports completion with a contact never loaded. |
| AutoevictFill.SingleBatchIsExact | app/radio_sync.py:1760-1778 | For at most two contacts, completion means every one was loaded, after any retries. |
| AutoevictFill.CompleteTrustedIff | app/radio_sync.py:1728-1778 | "Complete" means "all loaded" exactly for lists that fit one batch. |
| AutoevictFill.BlindFiller.SendBatch | app/radio_sync.py:1602-1668 | The add loop sends, counts and flags as the batch specification says, stopping at a full table. |
| AutoevictFill.BlindFiller.HoldLock | app/radio_sync.py:1575-1778 | Index reset, slice, retry counter and outcome of a lock hold are those of the specification. |
| AutoevictFill.BlindFiller.TakeTurn | app/radio_sync.py:1522-1782 | One pass of the loop with its exits, as specified. |
| AutoevictFill.BlindFiller.Run | app/radio_sync.py:1522-1782 | The whole autoevict loop computes the specified run. |
| ContactSelection.CapacityBounds | app/radio_sync.py:307-320 | The effective capacity is at least one, never above the configured or hardware capacity, and equal to one of them. |
| ContactSelection.LimitsOrdered | app/radio_sync.py:323-331 | Refill is the nearest whole number to 80%, the trigger the least at or above 95%; 1 <= refill <= trigger <= capacity, and they meet only for capacity one or two. |
| ContactSelection.DedupIsSound | app/radio_sync.py:1837-1894 | Deduplication keeps every key, none twice, and invents no contact. |
| ContactSelection.SelectionIsPrefix | app/radio_sync.py:1837-1894 | The selection is a prefix of the deduplicated fill order, within capacity: all favorites that fit, others only up to the refill target, everything when there is room. |
| ContactSelection.Fill | app/radio_sync.py:1853-1885 | One append loop extends the selection to the deduplicated lists cut at its limit. |
| ContactSelection.SelectForRadio | app/radio_sync.py:1837-1894 | The three phases together compute that selection, with distinct keys and within capacity. |
| WebSocketQueues.LogDropsSound | app/websocket.py:163-177 | Logging moves counts from unreported to logged and nothing else; non-final lines stay 60 seconds apart; a final one leaves nothing unreported. |
| WebSocketQueues.EnqueueSound | app/websocket.py:179-194 | Every outcome of an enqueue keeps order, completeness, accounting and spacing; a best-effort frame never evicts. |
| WebSocketQueues.NothingLostWhileConnected | app/websocket.py:124-194 | For a connected client, sent, in-flight and queued frames hold every state-bearing frame ever offered, once and in call order. |
| WebSocketQueues.StepConserves | app/websocket.py:95-216 | Connect, broadcast, personal send, the writer's steps, failure and disconnect each keep all invariants and the global counters. |
| WebSocketQueues.RunConserves | app/websocket.py:95-216 | The same in every reachable state of every interleaving. |
| WebSocketQueues.GlobalCounterConserved | app/websocket.py:163-194 | The process-wide counter per type is the sum of all logged and all unreported drops of every client ever connected. |
| WebSocketQueues.DroppableNeverEvicts | app/websocket.py:179-194 | In any reachable state a best-effort broadcast disconnects nobody. |
| WebSocketQueues.DeliveryOfEveryRun | app/websocket.py:124-216 | In every run each client's sent frames are a prefix of its accepted ones, a connected client misses no state-bearing frame, and a departed one that was not replaced has every drop logged. |
| WebSocketQueues.ReplacedNeverReports | app/websocket.py:95-103 | What a client replaced by a new connection of its socket had not reported stays unreported, step by step, whatever happens next. |
| WebSocketQueues.AllReportedIff | app/websocket.py:95-111 | In every run, no departed client has unreported drops exactly when no connect ever meets an active client of its socket that has some. |
| WebSocketQueues.SpillingRun | app/websocket.py:95-194 | A run that does: connect, 258 community frames at one clock value, connect again. |
| WebSocketQueues.WebSocketManager.constructor | app/websocket.py:88-93 | Starts as the empty run. |
| WebSocketQueues.WebSocketManager.Accept | app/websocket.py:95-103 | A new client starts with an empty queue and no drops; an active client of the same socket is forgotten, without a log line and with its writer still running. |
| WebSocketQueues.WebSocketManager.ReportDrops | app/websocket.py:163-177 | The rate-limited log line, as specified on one client, others unchanged. |
| WebSocketQueues.WebSocketManager.Evict | app/websocket.py:138-152 | An active client leaves with its drops logged; a departed one is left alone. |
| WebSocketQueues.WebSocketManager.Put | app/websocket.py:179-194 | Shed, evict or queue, and the global counter grows exactly when a frame is shed. |
| WebSocketQueues.WebSocketManager.BroadcastNowait | app/websocket.py:196-202 | The loop over clients is one broadcast step of the specification. |
| WebSocketQueues.WebSocketManager.SendRaw | app/websocket.py:212-216 | A personal frame goes to the socket's active client, if any. |
| WebSocketQueues.WebSocketManager.Leave | app/websocket.py:105-111 | The active client leaves with a final log line. |
| WebSocketQueues.WebSocketManager.WriterGet | app/websocket.py:124-126 | The writer takes the oldest frame. |
| WebSocketQueues.WebSocketManager.WriterSend | app/websocket.py:127-136 | A delivered frame is appended to what was sent; a failed one evicts. |
| SlotCache.PairedIffInverse | app/radio.py:429-497 | The invariant read through lookups is the invariant read through items. |
| SlotCache.LoadedLookups | app/radio.py:455-470 | Recording a load keeps the two maps inverse; every other key keeps its slot unless it was displaced from this one. |
| SlotCache.UsedLookups | app/radio.py:472-482 | Recording a use keeps the maps inverse and changes no lookup. |
| SlotCache.ForgottenLookups | app/radio.py:484-488 | Forgetting a slot keeps the maps inverse and drops exactly the key it held. |
| SlotCache.InvalidatedLookups | app/radio.py:490-497 | Invalidating a key keeps the maps inverse and drops exactly that key. |
| SlotCache.PlanFindsFreeSlot | app/radio.py:445-512 | Below capacity the plan is an unclaimed slot, by pigeonhole, and within capacity for a non-negative preferred slot; the final fallback is never reached. |
| SlotCache.StepCoherentIff | app/services/message_send.py:269-352 | One event, whatever fails (send, restore write, clear, mesh test, reset, reuse toggle): a cache that is true of the radio stays so exactly when what is written past it hits an unclaimed slot or leaves the cached key there. |
| SlotCache.RunSound | app/radio.py:429-497 | After every session, whatever fails: the two maps are inverse and in order of last load or use. |
| SlotCache.RunCoherent | app/services/message_send.py:269-352 | After every session in which, since the start or the last reset, such writes spared the cache, it is inverse, in order and true of the radio. |
| SlotCache.BrokenByUnspared | app/services/message_send.py:269-352 | The first write that does not spare the cache leaves it wrong about the radio. |
| SlotCache.ResetRestoresTrust | app/radio.py:393-396 | Whatever went wrong before a reset, only the events after it count. |
| SlotCache.FreeThenBorrow | app/routers/tools.py:115-119 | A slot freed and then borrowed with nothing in between costs the cache nothing else. |
| SlotCache.LostRestoreBreaks | app/services/backup_radio.py:545-549 | A restore write whose answer is lost: the next send of the cached key goes out on the other channel. |
| SlotCache.NoResultBreaks | app/services/message_send.py:289-306 | The same after an evicting configure that comes back without a result. |
| SlotCache.ToggledReuseBreaks | app/radio.py:439-440 | The same after a send with reuse off, turned on again without a reset. |
| SlotCache.SendBeforeBorrowBreaks | app/routers/tools.py:115-155 | The same when a send comes between freeing the mesh test's slot and borrowing it. |
| SlotCache.SkippedConfigureIsSafe | app/radio.py:442-445 | In every such session a plan that skips configuration names a slot that already holds that key on the radio. |
| SlotCache.EvictedIsLeastRecentlyUsed | app/radio.py:452-453 | In every session the evicted key is the cached one loaded or used longest ago. |
| SlotCache.SendWithoutReuse | app/radio.py:439-440 | A send with reuse off, whatever its answer, leaves the cache true of the radio exactly when the cache had no other key for that slot. |
| SlotCache.ChannelSlots.ResetCache | app/radio.py:393-396 | Both maps become empty. |
| SlotCache.ChannelSlots.FindFirstFree | app/radio.py:503-512 | The preferred slot if free, else the lowest free one, else the preferred slot. |
| SlotCache.ChannelSlots.PlanSendSlot | app/radio.py:429-453 | The plan of the specification, or the preferred slot with reuse off. |
| SlotCache.ChannelSlots.NoteLoaded | app/radio.py:455-470 | The in-place updates are the specified load; nothing with reuse off. |
| SlotCache.ChannelSlots.NoteUsed | app/radio.py:472-482 | The in-place updates are the specified use; nothing with reuse off. |
| SlotCache.ChannelSlots.Forget | app/radio.py:484-488 | The in-place updates are the specified forget. |
| SlotCache.ChannelSlots.Invalidate | app/radio.py:490-497 | The in-place updates are the specified invalidation. |
| SlotCache.ChannelSlots.SendMessage | app/services/message_send.py:269-352 | Plan, configure, send and their failure paths update the cache as the session event does. |
| SlotCache.ChannelSlots.RestoreChannel | app/services/backup_radio.py:545-549 | A restore write updates the cache only when it was accepted. |
| SlotCache.ChannelSlots.FreeSlot | app/routers/tools.py:115-119 | The loop drops exactly the cached keys of the slot, as specified. |
| SecretScrubbing.ReplaceRemoves | app/log_redaction.py:176-180 | Replacing removes every occurrence of a form that cannot overlap the marker. |
| SecretScrubbing.ScrubCreatesNothing | app/log_redaction.py:176-180 | No sequence of replacements creates an occurrence of a form that cannot overlap the marker. |
| SecretScrubbing.ScrubRemoves | app/log_redaction.py:176-180 | A registered form that cannot overlap the marker is gone, whatever later replacements rewrite. |
| SecretScrubbing.HiddenInMarker | app/log_redaction.py:176-180 | A form that occurs inside the marker is not scrubbed from every text. |
| SecretScrubbing.AlwaysGoneIff | app/log_redaction.py:176-180 | A registered form without brackets is gone from every text exactly when it is not a substring of "redacted", whatever other forms are registered. |
| SecretScrubbing.ScrubsCleanIff | app/log_redaction.py:176-180 | For bracket-free forms every text comes out clean exactly when none is a substring of "redacted". |
| SecretScrubbing.EdgeFormSurvives | app/log_redaction.py:176-180 | A form that meets the marker's edge can come back: "]x" in "]xx". |
| SecretScrubbing.DoubleBracketGone | app/log_redaction.py:176-180 | Meeting the edge is not always fatal: "[[" is gone from every text. |
| WholeSecrets.SingleFormGoneIff | app/log_redaction.py:176-180 | Any single registered form, brackets or not, is gone from every text exactly when at every place where it can meet the marker it reaches into it from the left and overlaps itself first. |
| SecretScopes.HexFormAlwaysScrubbed | app/log_redaction.py:108-129 | Both hex forms of a secret of four bytes or more are registered and gone from every text, whatever else is registered; a shorter secret registers nothing. |
| WholeSecrets.ReplacedWhole | app/log_redaction.py:132-180 | In every text whose occurrences of registered forms are nested or disjoint, each maximal occurrence becomes exactly one marker and the text on its two sides is scrubbed on its own. |
| WholeSecrets.ScrubbedWhole | app/log_redaction.py:132-180 | The same for any occurrence, in any text, that no form earlier in the list and no earlier occurrence of itself reaches into. |
| WholeSecrets.LoneSecret | app/log_redaction.py:132-180 | A secret between two stretches without registered forms is all that changes. |
| WholeSecrets.OverlapCutsSecret | app/log_redaction.py:176-180 | Overlapping forms: of "abcd" and "cdef" in "abcdef" the tail of the second stays. |
| SecretScopes.Insert | app/log_redaction.py:132-135 | Inserting keeps the list sorted longest first, without duplicates, with exactly one more form. |
| SecretScopes.Registry.RefreshSnapshot | app/log_redaction.py:132-135 | The snapshot is exactly the registered forms, longest first. |
| SecretScopes.Registry.Enter | app/log_redaction.py:108-156 | Opening a scope registers every form of each of its secrets and keeps each form's count equal to the open scopes that register it. |
| SecretScopes.Registry.Exit | app/log_redaction.py:157-167 | Closing any open scope, in any order, keeps that equality. |
| SecretScopes.Registry.ScrubLiterals | app/log_redaction.py:176-180 | The loop applies the specified scrubbing; no form of an open scope that cannot overlap the marker remains. |
| PacketFraming.PrintAfterParse | app/path_utils.py:83-141 | What is accepted is well formed, and printing its header, transport codes, path byte, path and payload gives the original bytes. |
| PacketFraming.ParseAfterPrint | app/path_utils.py:43-141 | Every well-formed envelope parses back to itself. |
| PacketFraming.RejectedIff | app/path_utils.py:83-141 | A packet is rejected exactly when no well-formed envelope prints to it. |
| PacketFraming.HashInputExact | app/path_utils.py:371-395 | Two packets feed the hash the same bytes exactly when type and payload agree, and for TRACE the path byte. |
| PacketFraming.HashIgnoresRoute | app/path_utils.py:371-407 | Except for TRACE, a heard packet hashes as its payload alone, over any route, transport codes, version and path. |
| PacketFraming.ComputedHashIsCanonical | app/path_utils.py:402-420 | A computed hash is its own canonical form, unless it is the null hash. |
| PacketFraming.CanonicalHashIsStable | app/path_utils.py:410-420 | A canonical hash is 16 uppercase hex digits, not all zero, and canonicalizes to itself. |
| HashBackfill.PassesKeepSurvivors | app/migrations/_005_backfill_payload_hashes.py:46-106 | The scan, the updates and the deletes together keep the first row of every hash class, with its hash. |
| HashBackfill.SurvivorsAreLowest | app/migrations/_005_backfill_payload_hashes.py:43-106 | The kept rows are exactly the lowest id of each hash class, hashes are distinct (so the unique index can be built), data is untouched and every row's class is represented. |
| HashBackfill.RawPackets.FindDuplicates | app/migrations/_005_backfill_payload_hashes.py:46-78 | The batched first pass finds exactly the updates and deletes of the specification. |
| HashBackfill.RawPackets.ScanBatch | app/migrations/_005_backfill_payload_hashes.py:57-78 | One fetched batch carries the scan from its first row to its last. |
| HashBackfill.RawPackets.ApplyUpdates | app/migrations/_005_backfill_payload_hashes.py:83-92 | One update per kept packet, in order. |
| HashBackfill.RawPackets.DeleteInBatches | app/migrations/_005_backfill_payload_hashes.py:94-106 | Deleting 500 at a time deletes exactly the listed rows. |
| HashBackfill.RawPackets.Migrate | app/migrations/_005_backfill_payload_hashes.py:21-113 | With a row still unhashed the table becomes the lowest row of every hash class; otherwise nothing changes. |
| GroupText.FindSeparator | app/radio_sync.py:419-429 | The first occurrence of a colon and a space, or the end of the text. |
| GroupText.DecoderSplitIff | app/decoder.py:227-237 | The decoder finds a sender exactly in texts made of a name of 1 to 49 characters without colon, bracket or NUL, the separator and the message. |
| GroupText.PendingSplitIff | app/radio_sync.py:419-429 | The splitter of pending messages finds a sender in exactly the same texts. |
| GroupText.SplittersAgree | app/decoder.py:227-237 | The two splitters agree on every text. |
| GroupText.SplitRejoins | app/decoder.py:227-237 | Sender, separator and message rejoin to the original text; without a sender the message is the text. |
| GroupText.FanoutStripsPrefix | app/fanout/base.py:68-92 | Stripping the detected sender leaves exactly the detected message. |
| GroupText.PlaintextFields | app/decoder.py:303-311 | Timestamp, flags and text up to the first NUL are read back from the padded plaintext. |
| GroupText.BlobRoundTrip | app/decoder.py:158-187 | What is encrypted passes the length and MAC checks and decrypts to its plaintext, over any invertible 16-byte block cipher. |
| GroupText.GroupTextRoundTrip | app/decoder.py:190-245 | Decryption recovers timestamp, flags, channel hash byte and the split text, for every text. |
| GroupText.NulFreeRoundTrip | app/decoder.py:190-315 | For NUL-free text nothing is lost: the split rejoins to the text sent, agrees with the pending-message splitter, and the fanout shows exactly that message. |
| GroupText.PredictedHashIsHeard | app/decoder.py:318-333 | A non-null hash predicted for an outgoing message is the hash of every heard packet carrying that payload. |
| ExpandedKeySigning.TimesModulo | app/keystore.py:54-57 | Multiples of the base point depend on the factor modulo the order only. |
| ExpandedKeySigning.SignatureEquation | app/keystore.py:44-57 | S times B is R plus k times A, for a scalar of which the library sees only a part, exactly when k times the unseen part vanishes; section 5.1.7 of RFC 8032. |
| ExpandedKeySigning.ThirtyTwoBytes | app/keystore.py:34-34 | The order is below 2^255, so S and R's scalar always fit 32 bytes with the top bit clear. |
| ExpandedKeySigning.SignaturesVerify | app/decoder.py:553-576 | A signature built from a 64-byte expanded key verifies under the public key derived from the same key exactly when the scalar is below 2^255 (reduced or not) or k times 2^255 times the base vanishes, for every message; sections 5.1.6 and 5.1.7 of RFC 8032. |
| ExpandedKeySigning.TopBitBreaksSignatures | app/decoder.py:553-576 | Over a base point of exactly that, odd, order: it verifies exactly when the top bit is clear or the challenge is zero. |
| ExpandedKeySigning.LawsCanHold | app/keystore.py:34-34 | The laws asked of the curve, an exact odd order included, can be met together. |
| ContactRoutes.IdempotentIff | app/path_utils.py:168-219 | Normalizing twice is normalizing once, exactly off an explicit family of rows. |
| ContactRoutes.UnsettledRow | app/path_utils.py:191-219 | A row of that family: 64 hops stored with a count of 200. |
| ContactRoutes.OrdinaryRowsSettle | app/path_utils.py:168-219 | It is so for every path when the length is -1..63 or its low byte is not 0xC0-0xFE. |
| ContactRoutes.SplitOfJoin | app/path_utils.py:144-156 | A path of equal hops splits back to them. |
| ContactRoutes.ExplicitRoutes | app/path_utils.py:239-261 | A typed route splits back to its hops; it is a fixed point of normalization exactly up to 63 hops; 64 hops become an empty route. |
| ContactRoutes.TypedHops | app/path_utils.py:239-261 | Routes of 1 to 64 one-byte hops can be typed; up to 63 survive normalization, of 64 nothing is left. |
| ContactRoutes.Contact.constructor | app/models.py:135-206 | The effective route is the normalized override, else the direct route, else flood, exactly when the deciding row is one that normalization settles; its source and the two stored routes follow. |
| AlertRules.MergeMonoid | app/telemetry_alerts.py:272-278 | The merge is associative and idempotent, with the empty spec as identity on both sides. |
| AlertRules.MergeAllIsLastSet | app/telemetry_alerts.py:272-278 | Merging any stack of layers takes, field by field, the last value that is set. |
| AlertRules.EffectiveLppRule | app/telemetry_alerts.py:860-872 | The rule of an LPP channel is the last set value of global type, node type, global channel, node channel, and there is none exactly when all four are absent. |
| AlertRules.LayerRules | app/telemetry_alerts.py:487-490 | The merge loop layers every rule of the second map over the first. |
| AlertRules.ResolveNodeRules | app/telemetry_alerts.py:483-491 | A node resolves to the global rules with its override layered on top, and alerts unless told not to. |
| AlertRules.PatchedRule | app/telemetry_alerts.py:400-480 | After a PATCH each rule is the last set value of default, stored and patched, with the silence threshold clamped. |
| AlertRules.LegacyPatch | app/models.py:1285-1308 | A legacy PATCH updates only the three thresholds it names, and only those it sets. |
| AlertRules.LegacyOverride | app/models.py:1232-1256 | A legacy override updates only the three thresholds it names of what is stored for its node. |
| AlertRules.EntriesMerge | app/telemetry_alerts.py:456-478 | Merging override entries puts over each mentioned key all they say about it, in order, and touches no other key. |
| AlertRules.PatchIdempotent | app/telemetry_alerts.py:400-480 | Applying the same PATCH twice equals applying it once. |
| AlertRules.CoerceRules | app/telemetry_alerts.py:373-387 | Defaults are filled in below the rules and the silence threshold is clamped to one to four misses. |
| AlertRules.MergeByKey | app/telemetry_alerts.py:447-478 | The loop over override entries merges or replaces by lower-cased key as specified. |
| AlertRules.MergeTelemetryAlertRules | app/telemetry_alerts.py:400-480 | Channels by field, rules by id and overrides by key are merged as specified; an empty override map clears, a full document replaces. |
| AlertRules.ApplyDocument | app/models.py:1226-1308 | A document as it arrives, with legacy thresholds at the top and inside overrides, is merged as its rules. |
| TelemetryLatches.LatchStep | app/telemetry_alerts.py:677-742 | In one poll an alert needs an open latch and closes it, and only a clearing poll of that rule opens it; rules never touch each other's rows. |
| TelemetryLatches.ClearedBetweenAlerts | app/telemetry_alerts.py:883-990 | Over any polls and changing rules, between two alerts of one rule lies a re-arming reading (gauge), a fix (GPS lost) or a success (silence). |
| TelemetryLatches.LatchExact | app/telemetry_alerts.py:677-742 | In one poll a latch is closed by an alert and opened by a clearing poll, and only so. |
| TelemetryLatches.GaugeAlertsIff | app/telemetry_alerts.py:883-937 | In every run a gauge alerts at a poll exactly when its reading is in alarm and no alert stands since the last clearing poll. |
| TelemetryLatches.GaugeAlertsFromReadings | app/telemetry_alerts.py:883-937 | With non-negative hysteresis, from the readings alone: a gauge alerts exactly when its reading is in alarm, the latch was open or has been cleared, and every earlier alarm was followed by a clearing poll. |
| TelemetryLatches.GpsAlertsIff | app/telemetry_alerts.py:940-990 | In every run, from any stored row, the GPS rule alerts at a poll exactly when it finds no fix and the last evaluated poll before it did; if there was none, exactly when the row or the history says there was one and no alert stands. |
| TelemetryLatches.MissesFrom | app/telemetry_alerts.py:745-793 | From any consistent row, under one enabled rule, the alert comes exactly when the count reaches the threshold. |
| TelemetryLatches.SilenceAtThreshold | app/telemetry_alerts.py:745-793 | After a success the silence alert comes at exactly the threshold-th miss and only then. |
| TelemetryLatches.BusyChangesNothing | app/telemetry_alerts.py:685-686 | Deleting all busy polls changes no row and no alert. |
| TelemetryLatches.AlertState.ApplySilence | app/telemetry_alerts.py:745-793 | The miss counter, the latch and the alert of one poll, as specified. |
| TelemetryLatches.AlertState.ApplyGauge | app/telemetry_alerts.py:883-937 | The hysteresis latch of one reading, as specified. |
| TelemetryLatches.AlertState.ApplyStatusGauges | app/telemetry_alerts.py:796-833 | The loop evaluates exactly the enabled gauges with a value, in order. |
| TelemetryLatches.CollectSamples | app/telemetry_alerts.py:849-858 | The loop keeps one value per channel, the latest, in order of first appearance. |
| TelemetryLatches.AlertState.ApplyLppGauges | app/telemetry_alerts.py:836-880 | The two loops evaluate each present channel once, with its latest value. |
| TelemetryLatches.AlertState.ApplyGpsLost | app/telemetry_alerts.py:940-990 | A lost fix alerts once; a fix clears. |
| TelemetryLatches.AlertState.NoteTelemetryPoll | app/telemetry_alerts.py:677-742 | One poll applies silence, gauges, LPP gauges and GPS in that order, and nothing when busy, untracked or muted. |

## Left out

- Radio, serial, TCP, BLE, MQTT and HTTP input and output, SQL execution and the log lines' wording: their answers are parameters.
- Task scheduling: clock syncs and slot operations run one after another, as they do under the radio lock; WebSocket events interleave freely, one at a time. Object identities (`id()` of a connection) are arbitrary numbers that may be reused.
- ClockWrap.AlwaysFixesIff: the host clock is plausible and has twenty seconds left before it no longer fits 32 bits; wall clock and monotonic clock advance together. `AlwaysCaughtIff` and `EverCaughtIff` are about overflows at most 50 s past or an hour and a second away.
- RadioTable.CompleteMeansLoaded: the radio's table changes through the loop's commands only, not through contacts the radio adds or drops by itself. In `ContactReconcile` the library's cache is arbitrary at the start of each hold. Cancellation and an exception outside the radio commands, which end the loop, are not modelled.
- AutoevictFill.BlindFiller.Run: payload fields other than the key and the flags are not modelled.
- ContactSelection.LimitsOrdered: the 80% and 95% ratios are exact fractions, not floating point; the repository's lists are arbitrary.
- WebSocketQueues.WebSocketManager.BroadcastNowait: a client is a record in a sequence, so sharing of client objects is not captured; after a departure the frame in flight is frozen.
- SlotCache.StepCoherentIff: upper- and lower-casing is ASCII only, here and in the other modules.
- SecretScrubbing.AlwaysGoneIff: among several registered forms the exact condition is for a form without brackets; for one with brackets the sufficient condition of `ScrubRemoves` is stated, and the exact one of `SingleFormGoneIff` when it is the only form. The structural rules based on regular expressions are not modelled, and the interpreter's own repr of a character is a parameter.
- PacketFraming.CanonicalHashIsStable: stripping removes space, tab, newline and carriage return only.
- The payload type check of `parse_packet`, bucket statistics, advertisements, direct messages and shared secrets in `app/decoder.py`: they would add only easy members or need the curve itself.
- ExpandedKeySigning.SignaturesVerify: the curve is any group; the library's refusal of the identity point is not modelled.
- GroupText.PredictedHashIsHeard: a timestamp or flag that does not fit its bytes, or a bad key length, gives no payload where the library raises.
- AlertRules.ApplyDocument: works on parsed documents; stored override keys are already lower case, rule ids are structured values instead of strings, and numbers are reals.
- TelemetryLatches.LatchStep: the poll's time is not zero, because a stored time of zero reads as "not fired". Dispatch to push, e-mail and webhook is not modelled.
- Building the unique index and the other migrations; `FanoutManager`, publishers, reconnect locks, API models, front end and bot execution.
