# A verified model of the Octos client core

The project models the parts of the Octos web client whose correctness is not visible in any single function, and
proves what they are relied on for. It is written for Dafny 4.11; `dafny verify dfyconfig.toml` checks everything.

Files follow the parts of the client:

- **RPC client** (`ClientModel`, `ClientInvariant`, `ClientTheorems`, `ClientSteps`, `ClientTraffic`,
  `ClientIsolation`, `Client`). `OctosUiClient` is a class whose methods are the client's atomic steps: `connect`, the
  four socket callbacks, the connect timeout, `request`, the request timeout and `disconnect`. A ghost trace records
  promises called, live timers, frames sent, close calls and errors. Each method is proved to be exactly one step of a
  state machine, in which the 128-entry window of settled ids is replaced by the whole history. Theorems are then
  about every sequence of callbacks over any number of sockets, where events of replaced sockets still arrive and any
  callback may repeat.
- **Wake payloads** (`WakePayload`). `cloneJsonValue` and `deepFreeze` over a heap of numbered nodes with sharing and
  cycles, against an independent definition: reachability, cycles, and the tree a value unfolds to.
- **Context meter** (`ContextReducer`, `ContextWire`, `ContextLogs`). The reducer over streams of notifications, against
  a definition of what the snapshot means in terms of the last accepted report of each kind, and exactly which logs of
  accepted reports there are.
- **Hydration** (`Envelope`, `Replay`, `Hydrate`, `HydrateResult`). The `session/hydrate` parser with everything nested
  in it, as a fixed point, and the replay checkpoint test with its bounds.
- **Session identity** (`SessionIdentity`, `DispatchReceipt`). Bases, profiles and topics, worker sessions, receipts,
  their fences and the retry check.
- **Decimal numerals** (`Decimal`). Observed revisions, and request ids.
- **Smaller machines** (`FleetStart`, `ModelConfig`, `SnapshotRows`).
- `Wrappers`, `Json`, `Seqs`, `Chars` hold the shared vocabulary. For every parser, a predicate named `Says…` tells in
  terms of the record alone what it says, and a lemma named `…ReadExactly` proves that exactly this is read.

## Findings

- A worker session matched under a master is usually a master base of its own, but not always: a native-safe slug may
  contain blanks, and a topic with white space is refused by `masterWireBase`. `SessionIdentity.WorkerAsMaster` gives
  the exact condition (the slug has no white space) and `SessionIdentity.BlankSlugExample` an instance.
- The status `connecting` does not imply that a handshake is under way: `connect` builds the URL after setting the
  status and outside the `try`, so a URL that cannot be built leaves the client in `connecting` without a socket.
  `ClientTheorems.StuckExactlyAfterBadUrl` proves that this is the only way there, for every run, and
  `ClientTheorems.BadUrlExample` gives the shortest run. The URL depends only on options fixed when the client is made,
  so such a client never connects, and only `disconnect` leaves the state (`ClientTheorems.WithoutUrlNothingBegins`);
  for every other client `connecting` means what it says (`ClientTheorems.WithUrlConnectingIsUnderWay`).
- The comment at external-driver.ts:1236 calls `profile:local:tui#peer-<slug>` the canonical adopted session. The code
  accepts any valid master base in front of `#peer-<slug>`. `DispatchReceipt.CanonicalSessionExactly` says when the
  session of an accepted receipt has that form, and `DispatchReceipt.BareReceiptIsAccepted` gives one that has not.

## Model

| member | source | states |
|---|---|---|
| ClientInvariant.StepKeepsInv | packages/client/src/client.ts:383-535 | Every call and callback keeps: pending requests have live timers and were sent on the current, opened socket; issued ids are the settled and the pending ones, disjointly; no id is retired twice; each connect promise's timer runs exactly until the promise is called |
| ClientInvariant.RunKeepsInv | packages/client/src/client.ts:383-535 | That invariant holds after every legal interleaving of events |
| ClientTheorems.RequestsSettleOnce | packages/client/src/client.ts:487-535 | In every run each issued id has either been settled once or is pending once, never both; it is pending exactly while its timer is live, and then it was sent on the current socket; without a socket nothing is pending |
| ClientTheorems.RequestsAreConserved | packages/client/src/client.ts:496-535 | The number of issued ids is the number of settlements plus the number of pending requests |
| ClientTheorems.IdsAreConsecutive | packages/client/src/client.ts:512 | The ids issued in a run are exactly the numerals from 1 up to the next number |
| ClientTheorems.RequestIsIssuedExactlyWhenOpen | packages/client/src/client.ts:496-535 | A request is issued if and only if the current socket opened cleanly and is ready; it gets a fresh id, its frame goes out on that socket and it waits with a timer, unless sending threw, which rejects it at once and leaves nothing behind |
| ClientTheorems.PendingEndsExactlyWhen | packages/client/src/client.ts:410-535 | A pending request stops waiting if and only if its reply arrives on the current socket, its timer fires, the current socket closes or the client disconnects; as long as it waits the socket stays the same, so the connect timeout strands none |
| ClientTheorems.SettlementsHaveCauses | packages/client/src/client.ts:463-535 | Every settlement in a run is made by one event of the run, in a state where it was still open: a reply with exactly that result or error to the id, pending on the socket the reply came from; the id's own timer, naming the method it was sent with; the failed sending of the request that had that id; or the close of the socket it was issued on, or a disconnect, while it was pending |
| ClientTheorems.RepliesComeFromTheSendingSocket | packages/client/src/client.ts:1025-1043 | A reply only ever settles a request that was sent on the socket the reply came from |
| ClientTheorems.HistoryIsTheRejections | packages/client/src/client.ts:1046-1062 | The ids marked as settled are, in order, exactly those rejected by a timeout or a lost connection; ids answered or failing to send are never marked |
| ClientTheorems.LateReply | packages/client/src/client.ts:1025-1030 | A reply to a marked id is swallowed silently if and only if fewer than 128 ids were marked after it and no reply to it was swallowed before; otherwise it raises the unknown-request error; nothing else changes |
| ClientTheorems.LateReplySwallowedOnce | packages/client/src/client.ts:1025-1030 | Once a late reply to an id was swallowed, every further reply to it, after any continuation of the run, is reported as unknown |
| ClientTheorems.EveryReplyHasOneFate | packages/client/src/client.ts:1000-1044 | Every reply on the current socket settles its request with its own result or error while that is pending, is swallowed if the request is still remembered, and is reported as unknown otherwise; nothing else changes |
| ClientTheorems.ConnectsSettleOnce | packages/client/src/client.ts:410-483 | Every connect promise is called at most once, and its timer is live exactly until it is called |
| ClientTheorems.ConnectOutcomesHaveCauses | packages/client/src/client.ts:410-483 | Each connect promise is called by the first open, error, close or timeout callback its socket made: resolved if that was an open while the socket was current, and rejected otherwise |
| ClientTheorems.SettledAfterFirstCallback | packages/client/src/client.ts:410-483 | The connect promise of any socket, current or replaced, is settled if and only if the socket has made such a callback |
| ClientTheorems.ConnectedMeansOpenedCleanly | packages/client/src/client.ts:433-483 | While there is a socket its own callbacks decide the status: connecting before the first, connected if that was an open and no error followed, error otherwise; and the status is connected in no other situation |
| ClientTheorems.StatusAfterLoss | packages/client/src/client.ts:416-494 | A close or timeout of the current socket, and a disconnect, always drop the socket, and end in disconnected if it had opened cleanly or the caller asked for it, and in error otherwise |
| ClientSteps.SocketStepsExactly | packages/client/src/client.ts:383-494 | After any run, the socket goes exactly when it closes, its connect times out or the client disconnects, and comes exactly when a connect without a socket creates one; it then is a new one, and no other step makes one |
| ClientSteps.StatusStepsExactly | packages/client/src/client.ts:383-494 | The status after any step of any run: decided by the socket's own callbacks while there is one, by how it was lost when it goes, and without a socket changed only by a failing connect or a disconnect |
| ClientSteps.CloseCallsExactly | packages/client/src/client.ts:416-432 | The client closes exactly the socket whose connect times out while current, and the socket it disconnects unless that is closing already |
| ClientSteps.ErrorsExactly | packages/client/src/client.ts:383-494 | The errors each step of any run reports: a throwing factory, a timeout or an error of the current socket, and on the current socket a frame that is no text, is invalid, lacks its id or answers no known request; nothing else is reported |
| ClientSteps.OtherFramesOnlyReport | packages/client/src/client.ts:1000-1024 | A frame that answers no request changes nothing but the errors, and a notification not even those |
| ClientSteps.PendingIsOldestFirst | packages/client/src/client.ts:520-525 | In every run the pending requests wait in the order they were issued |
| ClientSteps.LossRejectsInOrder | packages/client/src/client.ts:1046-1053 | Losing the connection rejects and marks every pending request once, in that order, and leaves none |
| ClientTheorems.StuckExactlyAfterBadUrl | packages/client/src/client.ts:383-394 | A run ends in the status connecting without a socket if and only if some connect without a socket had a URL that could not be built and no connect or disconnect followed |
| ClientTheorems.BadUrlExample | packages/client/src/client.ts:383-394 | A single connect whose URL cannot be built gives that state, without any handshake |
| ClientTheorems.WithoutUrlNothingBegins | packages/client/src/client.ts:383-394 | A client whose options give no URL never gets a socket, a handshake or a request in any run; its status is idle at first, connecting after a connect and disconnected after a disconnect, so only disconnect leaves that state |
| ClientTheorems.WithUrlConnectingIsUnderWay | packages/client/src/client.ts:383-446 | A client whose options give a URL is connecting if and only if it has a socket whose handshake is not settled and whose timer runs |
| ClientTraffic.EachRequestIsSentOnce | packages/client/src/client.ts:512-534 | Of every issued request exactly one frame goes out, on the socket it was issued on, unless sending failed, and then none does; a timeout names the method the frame asked for |
| ClientTraffic.RepliesAnswerFrames | packages/client/src/client.ts:1025-1043 | A reply only ever settles a request whose frame went out on the socket the reply came from |
| ClientTraffic.SocketsAreClosedOnce | packages/client/src/client.ts:416-432 | The client closes a socket at most once, and never one that is or becomes current again |
| ClientIsolation.ReplacedSocketsLeaveNoTrace | packages/client/src/client.ts:410-483 | Deleting from any run every callback that a socket made while it was not current gives a legal run with the same socket, status, requests, settlements, timers, frames, close calls and errors |
| Client.OctosUiClient.constructor | packages/client/src/client.ts:224-243 | A new client satisfies the invariant, is in the initial state and keeps its options for good |
| Client.OctosUiClient.Request | packages/client/src/client.ts:496-535 | The method is exactly the machine's request step, frame included, and returns the new id when it issued one |
| Client.OctosUiClient.Send | packages/client/src/client.ts:513-534 | A request whose send succeeds is appended to pending with a timer and its frame to what was sent; one whose send throws leaves all three as they were and is rejected |
| Client.OctosUiClient.OnRequestTimeout | packages/client/src/client.ts:514-518 | The method is exactly the machine's request timeout, although it never looks whether the id is pending |
| Client.OctosUiClient.OnMessage | packages/client/src/client.ts:1000-1044 | The method is exactly the machine's message step, deciding late replies from the bounded id set |
| Client.OctosUiClient.MarkRequestSettled | packages/client/src/client.ts:1055-1062 | After marking an id the order is again the last 128 ids ever marked, and the id set is that window without the ids whose late reply was swallowed |
| Client.OctosUiClient.RejectPending | packages/client/src/client.ts:1046-1053 | The loop rejects and marks every pending request once, oldest first, clears their timers and empties pending |
| Client.OctosUiClient.Connect | packages/client/src/client.ts:383-414 | The method is exactly the machine's connect step, for options that give no URL, a throwing factory and a new socket |
| Client.OctosUiClient.OnConnectTimeout | packages/client/src/client.ts:416-432 | The method is exactly the machine's connect timeout, which closes the socket it drops |
| Client.OctosUiClient.OnOpen | packages/client/src/client.ts:433-446 | The method is exactly the machine's open step |
| Client.OctosUiClient.OnError | packages/client/src/client.ts:447-462 | The method is exactly the machine's error step |
| Client.OctosUiClient.OnClose | packages/client/src/client.ts:463-483 | The method is exactly the machine's close step |
| Client.OctosUiClient.Disconnect | packages/client/src/client.ts:487-494 | The method is exactly the machine's disconnect step, which closes the current socket unless that is closing already |
| WakePayload.UnfoldingIsUnique | packages/client/src/external-driver-wake-control.ts:113-151 | A value unfolds to at most one finite tree |
| WakePayload.WalkIsUnfolding | packages/client/src/external-driver-wake-control.ts:113-151 | Started with an empty path set, the walk returns a tree if and only if it is the value's unfolding; sharing is no obstacle |
| WakePayload.UnfoldingIsAcyclic | packages/client/src/external-driver-wake-control.ts:92-102 | A value with a finite unfolding reaches no cycle and no leaf that is not JSON |
| WakePayload.RefusalHasReason | packages/client/src/external-driver-wake-control.ts:121-150 | Whenever the walk refuses, a reachable node on a cycle or a reachable non-JSON leaf is exhibited |
| WakePayload.AcceptedExactlyWhenAcyclicJson | packages/client/src/external-driver-wake-control.ts:108-151 | A value is accepted if and only if everything reachable from it is acyclic and every reachable leaf is a JSON value |
| WakePayload.Heap.CloneJsonValue | packages/client/src/external-driver-wake-control.ts:113-151 | On every finite object graph the recursion terminates and succeeds exactly when the walk does; the clone unfolds to the same tree out of new nodes only, one for each branch, the source graph is unchanged and `seen` is restored |
| WakePayload.Heap.CloneChildren | packages/client/src/external-driver-wake-control.ts:125-148 | The loops over array entries and record entries clone the children in order out of one contiguous block of new nodes |
| WakePayload.Heap.DeepFreeze | packages/client/src/external-driver-wake-control.ts:92-102 | On a value with a finite unfolding the freeze terminates and freezes exactly the nodes that value is built from |
| WakePayload.Heap.DecodeContent | packages/client/src/external-driver-wake-control.ts:179-213 | Exactly one of payload and continuation must be present, `undefined` and null counting as absent; a payload is accepted if and only if it is acyclic JSON, and the result is a frozen copy that shares no node with the caller's graph, of which nothing is changed or frozen |
| WakePayload.Heap.DecodeOccurrence | packages/client/src/external-driver-wake-control.ts:161-215 | An occurrence is accepted if and only if it is a record with two safe counts, three non-empty texts and a decidable content; every field of the result is the record's own, and the caller's graph stays untouched |
| WakePayload.GuardsExactly | packages/client/src/external-driver-wake-control.ts:153-194 | A field is absent exactly when missing, null or `undefined`; a count is read exactly from a whole number of at most 2^53 - 1; a text exactly when it is not empty |
| ContextReducer.ApplyRecordsReading | packages/client/src/context-events.ts:12-64 | One step either ignores the notification or records what it reports, and ignores it exactly when it is unreadable, for another session, or behind the current generation |
| ContextReducer.FoldIsMeaning | packages/client/src/context-events.ts:12-79 | For every run, from any earlier snapshot: the state is the last accepted one; the prompt estimate shows if and only if the last accepted report was a state report; a compaction is in progress if and only if no completion follows the last start, with the data of that start; last compaction and normalization are the latest of their kind |
| ContextReducer.AcceptedReportsAreOrdered | packages/client/src/context-events.ts:24-26 | The generations of the accepted reports never decrease |
| ContextReducer.ProgressNotAheadOfState | packages/client/src/context-events.ts:32-47 | In every run from nothing, the generation of a compaction in progress never exceeds that of the state |
| ContextReducer.GenerationGrowsAlongRun | packages/client/src/context-events.ts:24-26 | Extending a run never lowers the generation and never loses the snapshot |
| ContextReducer.OtherSessionsAreInvisible | packages/client/src/context-events.ts:17-23 | Folding a stream of many sessions equals folding only the chosen session's notifications |
| ContextReducer.FoldInParts | packages/client/src/context-events.ts:12-64 | Folding two runs one after the other is folding their concatenation |
| ContextReducer.StaleInsertionIsInvisible | packages/client/src/context-events.ts:25-26 | Inserting, at any point of a run, any events with generations below the current one leaves the final snapshot unchanged |
| ContextReducer.ForeignSnapshotIsForgotten | packages/client/src/context-events.ts:17 | A run from another session's snapshot is a run from nothing, and a run from the session's own begins with it |
| ContextLogs.AcceptedLogsExactly | packages/client/src/context-events.ts:12-64 | A log of reports is what some run accepts, after any earlier snapshot, if and only if its generations never decrease and each report is within the parsers' limits; the run that writes the log out is one, and ends in the log's meaning |
| ContextWire.StateRoundTrip | packages/client/src/context-state.ts:79-106 | A state within the limits, written as a record, reads back unchanged, and for its own session only; used for the accepted logs |
| ContextWire.CompactionRoundTrip | packages/client/src/context-state.ts:108-140 | A compaction within the limits, written as a record, reads back unchanged; used for the accepted logs |
| ContextWire.NormalizationRoundTrip | packages/client/src/context-state.ts:142-164 | A normalization within the limits reads back unchanged, and only such normalizations are read |
| ContextWire.StateReadExactly | packages/client/src/context-state.ts:79-106 | A state is read if and only if the value is a record that says it: safe counts, labels within 512 characters, each diagnostic a label or missing, the asked session; other fields do not matter |
| ContextWire.CompactionReadExactly | packages/client/src/context-state.ts:108-140 | A compaction is read if and only if the record says it: each optional count a count or missing, each optional text a text, cut at 512 characters, or missing, null counting as missing |
| ContextWire.NormalizationReadExactly | packages/client/src/context-state.ts:142-164 | A normalization is read if and only if the record says it: seven safe counts and a label |
| Envelope.CursorRoundTrip | packages/client/src/wire-decoders.ts:19-28 | A cursor within the safe integers, written as a record, reads back the same |
| Envelope.EnvelopeRoundTrip | packages/client/src/projection.ts:10-52 | A sound projection envelope, written as a record, reads back the same under its own session and any payload guard that accepts it |
| Envelope.EnvelopeInventsNothing | packages/client/src/projection.ts:10-52 | Every field of a parsed envelope is the wire's; only a missing session is filled in, with the hydrated one, and only unknown fields of payload and cursor are dropped |
| Envelope.CursorReadExactly | packages/client/src/wire-decoders.ts:19-28 | A cursor is read if and only if the value is a record with a stream text and a safe count, whatever else it holds |
| Envelope.EnvelopeReadExactly | packages/client/src/projection.ts:10-52 | An envelope is read if and only if the record says it: a missing session takes the hydrated one, a topic or message id that is no text is dropped, and a cursor must be one if given |
| Replay.CheckReplay | packages/client/src/hydrate.ts:223-244 | The loop accepts if and only if positions (thread, seq) are pairwise distinct and every event is within its thread's checkpoint, on the snapshot's stream and not past its cursor |
| Replay.ValidReplayIsUnordered | packages/client/src/hydrate.ts:223-244 | Acceptance is a property of the multiset of events |
| Replay.OrderIsIrrelevant | packages/client/src/hydrate.ts:223-244 | Permuting a replay never changes whether it is accepted |
| Replay.ThreadIsBounded | packages/client/src/hydrate.ts:233-238 | An accepted replay has at most checkpoint + 1 events of a thread, and none of a thread without checkpoint |
| Replay.ReplayIsBounded | packages/client/src/hydrate.ts:223-244 | An accepted replay has at most the sum of checkpoint + 1 over all threads |
| Hydrate.OptionalArrayCodec | packages/client/src/hydrate.ts:246-254 | An optional array whose elements read back unchanged reads back unchanged, and every parsed element is sound |
| Hydrate.MessageRoundTrip | packages/client/src/hydrate.ts:130-168 | A sound message, written as a record, reads back the same |
| Hydrate.MessageInventsNothing | packages/client/src/hydrate.ts:130-168 | Every field of a parsed message is the wire's; only a missing media list is filled in, with the empty one |
| Hydrate.TurnRoundTrip | packages/client/src/hydrate.ts:170-194 | A sound turn, written as a record, reads back the same |
| Hydrate.TurnInventsNothing | packages/client/src/hydrate.ts:170-194 | Every field of a parsed turn is the wire's |
| Hydrate.MessageReadExactly | packages/client/src/hydrate.ts:130-168 | A message is read if and only if the record says it: four required fields, six optional texts and a media list of texts that may be absent |
| Hydrate.TurnReadExactly | packages/client/src/hydrate.ts:170-194 | A turn is read if and only if the record says it, a null durability counting as absent |
| Hydrate.FileMutationReadExactly | packages/client/src/interaction.ts:152-178 | A mutation is read if and only if its trimmed path is non-empty, bounded and free of controls; an operation that is none of the four reads as modify, and a malformed preview or byte count as absent |
| Hydrate.ReadableEntriesAreKept | packages/client/src/hydrate.ts:97-108 | The list read is exactly the readable entries, one for one and in order |
| Hydrate.OptionalArrayReadExactly | packages/client/src/hydrate.ts:246-258 | An optional array is read if and only if it is absent or an array whose every element is read, and then element for element |
| Hydrate.FileMutationRoundTrip | packages/client/src/hydrate.ts:110-128 | A sound file mutation, written as a record, reads back the same |
| Hydrate.MutationsRoundTrip | packages/client/src/hydrate.ts:102-108 | Reading back written mutations drops none |
| Hydrate.ReadMutationsAreSound | packages/client/src/hydrate.ts:97-108 | Whatever the list holds, only sound mutations are kept |
| Hydrate.CheckpointsCodec | packages/client/src/hydrate.ts:208-221 | Checkpoints with non-blank threads and safe counts read back unchanged, and only such are read |
| Hydrate.CheckpointsReadExactly | packages/client/src/hydrate.ts:208-221 | Checkpoints are read if and only if absent, or a record whose every thread is non-blank and has a safe count, and then as they are |
| HydrateResult.ParsedIsHydrated | packages/client/src/hydrate.ts:14-95 | Every accepted hydrate result is sound in all its parts |
| HydrateResult.HydrateRoundTrip | packages/client/src/hydrate.ts:14-95 | Every sound hydrate result, written as a record, is accepted and reads back the same |
| HydrateResult.ParsingIsAFixedPoint | packages/client/src/hydrate.ts:14-95 | Parsing any accepted result again, written back as a record, succeeds with the same result |
| HydrateResult.HydrateInventsNothing | packages/client/src/hydrate.ts:65-94 | An accepted record and its result agree field by field: raw fields and checkpoints are carried over untouched and present exactly when given, the cursor is the record's, and every array but the file mutations is parsed one for one in order |
| HydrateResult.HydrateReadExactly | packages/client/src/hydrate.ts:14-95 | A hydrate result is read if and only if the record says it in all its parts, with replay and checkpoints both given and fitting or neither; anything wrong in any part refuses the whole |
| HydrateResult.AcceptedReplayFits | packages/client/src/hydrate.ts:48-57 | Replay and checkpoints come together or not at all, the replay satisfies the checkpoints, and its length is bounded by them |
| Decimal.PrintThenRead | packages/client/src/client.ts:512 | A printed number is a canonical numeral of that number |
| Decimal.PrintInjective | packages/client/src/client.ts:512 | Different request numbers have different ids |
| Decimal.GreaterIsNumeric | packages/client/src/external-driver-operations.ts:298 | On digit runs of one length the string comparison is the numeric one |
| Decimal.RevisionReadsExactlyU64 | packages/client/src/external-driver-operations.ts:292-300 | A string is read as n if and only if it is the canonical numeral of n and n < 2^64 |
| Decimal.RevisionRoundTrip | packages/client/src/external-driver-operations.ts:292-300 | Printing then reading, and reading then printing, are identities on the 64-bit revisions |
| SessionIdentity.HasControlCode | packages/client/src/external-driver.ts:446-452 | The loop finds a C0 control or DEL if and only if there is one |
| SessionIdentity.CheckPeerSlug | packages/client/src/external-driver.ts:1045-1059 | The loop accepts exactly the native-safe slugs |
| SessionIdentity.SlugExactly | packages/client/src/external-driver.ts:1045-1059 | A slug is safe if and only if it is none of the empty and dot names, ends in neither dot nor blank, holds no separator, colon, hash or control code, and has at most 64 bytes |
| SessionIdentity.Utf8Exactly | packages/client/src/external-driver.ts:1061-1064 | The byte length adds up character by character in the ranges of UTF-8 |
| SessionIdentity.ProfileExactly | packages/client/src/external-driver.ts:99-106 | A profile is valid if and only if it is non-empty without colon, hash and white space; the blank test adds nothing |
| SessionIdentity.PlainExactly | packages/client/src/external-driver.ts:454-472 | Raw ids and topics are the non-empty texts without white space, hash and control codes |
| SessionIdentity.BaseExactly | packages/client/src/external-driver.ts:474-506 | A base is accepted if and only if it is plain and qualified by no profile but the captured one |
| SessionIdentity.CapturedProfileMeaning | packages/client/src/external-driver.ts:416-437 | A base captures a profile if and only if it reads profile:channel:chat with a reserved channel and a profile that is no reserved name |
| SessionIdentity.MasterWireBaseIsBase | packages/client/src/external-driver.ts:1066-1105 | A master is accepted if and only if its profile, base and topic are sound, and the result is the part before the first # |
| SessionIdentity.MasterExactly | packages/client/src/external-driver.ts:1066-1105 | A master has a wire base if and only if it is that accepted base, alone or followed by a hash and one plain topic |
| SessionIdentity.ScopeAcceptedExactly | packages/client/src/external-driver.ts:508-551 | A scope is accepted if and only if its session has a wire base and the topic is well formed and agrees with the suffix; an accepted scope always passes the operations check, which accepts exactly the scopes accepted without a topic (external-driver-operations.ts:309-325) |
| SessionIdentity.WireBaseIsIdempotent | packages/client/src/external-driver.ts:1073-1105 | A wire base is its own wire base and has no topic |
| SessionIdentity.OtherProfile | packages/client/src/external-driver.ts:474-506 | An accepted master is accepted under another valid profile if and only if its base is not profile-qualified |
| SessionIdentity.WorkerSplits | packages/client/src/external-driver.ts:1012-1027 | A matched worker session splits back into the master's base and the slug's topic |
| SessionIdentity.WorkerDecomposesUniquely | packages/client/src/external-driver.ts:1004-1027 | One worker session matched under two masters, profiles and slugs has equal master bases and equal slugs |
| SessionIdentity.WorkersFollowTheBase | packages/client/src/external-driver.ts:1004-1027 | Masters with equal bases accept the same workers, and masters with different bases share none |
| SessionIdentity.MatchedWorkerIsNative | packages/client/src/external-driver.ts:1029-1043 | With a UUID turn, a matched worker has the native identity shape |
| SessionIdentity.NativeExactly | packages/client/src/external-driver.ts:998-1043 | An identity is native if and only if the turn is a UUID, the slug safe and the session a plain base with the slug's topic |
| SessionIdentity.WorkerExactly | packages/client/src/external-driver.ts:1004-1027 | A worker matches if and only if the slug is safe and the session is the master's base with the slug's topic |
| Chars.UuidExactly | packages/client/src/protocol-id.ts:1-29 | A protocol UUID is 32 hexadecimal digits, or the hyphenated form, bare, in braces or after urn:uuid:; braces never hold the plain digits |
| Chars.HyphenatedExactly | packages/client/src/protocol-id.ts:9-10 | The hyphenated form is five groups of 8, 4, 4, 4 and 12 hexadecimal digits |
| Chars.TrimExactly | packages/client/src/wire-decoders.ts:5-7 | Trimming removes white space at the two ends and only that |
| Chars.ClassesExactly | packages/client/src/protocol-id.ts:8-10 | The hexadecimal digits are the 22 digits and letters in either case; white space and the Unicode controls are exactly those of the listed code points |
| SessionIdentity.WorkerAsMaster | packages/client/src/external-driver.ts:1073-1105 | Used as a master, a matched worker has the master's base if its slug has no white space, and is refused otherwise |
| SessionIdentity.BlankSlugExample | packages/client/src/external-driver.ts:1045-1059 | A concrete worker that is matched under its master and refused as a master |
| DispatchReceipt.CheckRetryIdentity | packages/client/src/external-driver.ts:1347-1367 | The loop reports no conflict if and only if the receipts agree in everything but `duplicate`, and otherwise the name of the first differing field in the fixed order |
| DispatchReceipt.RetryKeepsFences | packages/client/src/external-driver.ts:1241-1326 | A reply that parses under some expectation and passes the retry check against a reply that meets another expectation meets that one too |
| DispatchReceipt.RetryChainKeepsFences | packages/client/src/external-driver.ts:1341-1367 | Along any chain of retries in which each is checked against the one before, every two receipts tell of the same acceptance and every reply meets every expectation of the chain |
| DispatchReceipt.TruthfulReceiptIsAccepted | packages/client/src/external-driver.ts:1166-1326 | Every sound receipt that answers an expectation is accepted under it, whichever fences the expectation gives or leaves open, for new and existing targets alike |
| DispatchReceipt.AcceptedExactly | packages/client/src/external-driver.ts:1241-1326 | A reply is accepted under an expectation if and only if it is a receipt that answers it: operation, model and workspace agree, lane, goal facets and target slug agree where given, and the session is the captured master's worker |
| DispatchReceipt.RefusedExactlyWhenUnanswerable | packages/client/src/external-driver.ts:1166-1213 | An expectation is refused up front if and only if no receipt there can be would ever answer it |
| DispatchReceipt.ContradictoryFencesShareNoReply | packages/client/src/external-driver.ts:1260-1311 | No reply is accepted under two expectations that contradict each other in operation, model, lane, workspace, goal, master base or target slug |
| DispatchReceipt.ReadIsReceipt | packages/client/src/external-driver.ts:1246-1259 | Every receipt read has non-blank texts, a UUID turn, a safe slug and safe counts |
| DispatchReceipt.ReceiptReadExactly | packages/client/src/external-driver.ts:1246-1259 | A receipt is read if and only if the reply says it, whatever else it holds |
| DispatchReceipt.GoalReadExactly | packages/client/src/external-driver.ts:1149-1164 | A scoped goal is read if and only if the record says it; missing and null are no goal, and a malformed one refuses the reply |
| DispatchReceipt.ReceiptRoundTrip | packages/client/src/external-driver.ts:1246-1325 | Every such receipt, written as a reply, reads back the same |
| DispatchReceipt.GoalRoundTrip | packages/client/src/external-driver.ts:1149-1164 | Every scoped goal, written as a record, reads back the same |
| DispatchReceipt.ReceiptNamesNativeWorker | packages/client/src/external-driver.ts:1278-1297 | An accepted receipt names a native worker below the captured master, and no master with another base can claim it |
| DispatchReceipt.CanonicalSessionExactly | packages/client/src/external-driver.ts:1232-1297 | The adopted session of an accepted receipt is p:local:tui#peer-slug if and only if the captured master's base is p:local:tui |
| DispatchReceipt.BareReceiptIsAccepted | packages/client/src/external-driver.ts:1241-1326 | A concrete reply is accepted whose adopted session has that form for no p |
| FleetStart.EveryDispatchIsTheLatestSubmitOnce | apps/web/src/app/fleet-start-sequencer.ts:40-66 | In every run of submits and seat changes each dispatch is made with the seat held and carries the latest submit, no submit is dispatched twice, and a waiting submit is the latest and not yet dispatched |
| FleetStart.EverySubmitGoesOut | apps/web/src/app/App.tsx:754-774 | In every run, once the seat is seen held nothing is left waiting, and whenever nothing waits the last dispatch was that of the last submit |
| FleetStart.SubmitsAndAcquiresAreConserved | apps/web/src/app/App.tsx:754-774 | Seat requests are the dispatches that had waited plus one if still waiting; submits are dispatches plus superseded submits plus one if still waiting |
| ModelConfig.ParseHints | packages/client/src/onboarding.ts:618-640 | The loop returns the whole hint record, or nothing exactly when some hint is unknown or ill-typed |
| ModelConfig.ParseLimited | packages/client/src/onboarding.ts:586-603 | The loop returns the numeric overrides, null kept apart from absent, or nothing exactly when one is out of its range |
| ModelConfig.ParseOverrides | packages/client/src/onboarding.ts:574-644 | The result, built key by key, is the input itself or nothing, and nothing exactly when some key or value is not allowed; so it is a fixed point on its own output |
| ModelConfig.OverridesExactly | packages/client/src/onboarding.ts:526-644 | The overrides accepted are exactly the records of the five keys whose values are missing, null or within their ranges and choices, hints included |
| ModelConfig.InferenceIsLossless | packages/client/src/onboarding.ts:478-509 | The inference part is the raw entry restricted to the five keys if and only if no hint is foreign, and always when the entry may be edited; the overrides parser accepts it unchanged |
| ModelConfig.EditIsLossless | packages/client/src/onboarding.ts:457-524 | Writing back the projection of an entry that may be edited loses nothing: every field outside the display's own five is the entry's, null kept apart from absent, the route holds exactly the texts given, the entry had no other field but a null price or strength, and reading it again gives the same projection, still editable |
| ModelConfig.ProjectionIsTheEntrys | packages/client/src/onboarding.ts:457-524 | Editable or not, every accepted entry's ids, flags and overrides are projected as the entry has them, null kept apart from absent; only foreign hints, the display's fields and unknown fields are left behind |
| ModelConfig.ForeignHintsOnlyBlockEditing | packages/client/src/onboarding.ts:478-498 | An entry with hints newer than the client reads exactly as it would without them, except that it may not be edited |
| ModelConfig.EditableRoundTrip | packages/client/src/onboarding.ts:457-524 | Every projection of that kind, written as an entry, is accepted and projects to itself |
| ModelConfig.ConfiguredReadExactly | packages/client/src/onboarding.ts:457-524 | A configured model is read if and only if the entry says it; it may be edited if and only if it has no foreign hint, no unknown field but a null price or strength, and no unknown field of the route |
| SnapshotRows.ParseSnapshotRows | packages/client/src/history.ts:66-91 | The loop returns exactly the first row of each id in input order, or nothing exactly when the list is too long or a row is unreadable |
| SnapshotRows.ListReadExactly | packages/client/src/history.ts:66-77 | A list is accepted if and only if it has at most 10000 items and each of them is a row |
| SnapshotRows.RowReadExactly | packages/client/src/history.ts:70-86 | A row is read if and only if the item says it, a long label being cut, not refused |
| SnapshotRows.RowsStandForFirstItems | packages/client/src/history.ts:66-91 | The rows stand for items in input order, each the first item with its id and with that item's own fields, only the label cut at 512 characters |
| SnapshotRows.EachIdOnce | packages/client/src/history.ts:77-80 | Output ids are pairwise distinct and are the input's ids |
| SnapshotRows.DistinctRowsAreKept | packages/client/src/history.ts:77-80 | A list without repeated ids is kept whole |
| SnapshotRows.RowRoundTrip | packages/client/src/history.ts:70-86 | Rows within the limits read back unchanged, and only such rows are read |
| SnapshotRows.ParsingAgainChangesNothing | packages/client/src/history.ts:66-91 | Running the parser on its own output changes nothing |

## Left out

- Sockets, timers, promises and the event loop themselves: each callback is one atomic step, a cleared timer never
  fires, the factory returns a new socket each time, and promise continuations run after the step.
- Status, error and notification listeners: they are not called in the model, and are assumed not to call back into the
  client.
- `parseIncomingFrame` and JSON text: a message arrives already classified; a success frame always has a request id and
  a failure frame may lack one, as rpc.ts:72-104 guarantees.
- Request numbers are unbounded, where the source stops being exact beyond 2^53.
- Strings are sequences of Unicode scalar values. A length limit counts a character outside the basic plane once where
  JavaScript counts two units, and lone surrogates do not occur.
- `-0`, getters, symbol keys, prototypes and sparse arrays. In parsed JSON records an absent field stands for
  `undefined`; in the object graphs of wake payloads `undefined` is a value of its own.
- Client.OctosUiClient.RejectPending: the close error and the disconnect error are one outcome, without their texts.
- Client.OctosUiClient.Request: the typed command wrappers that validate a result after the promise resolves are not
  modelled.
- WakePayload.Heap.CloneJsonValue: after a refused clone `seen` is unspecified, as the set is thrown away then.
- The set `seen` of the clone and the freeze marks are sets of nodes; identity of the frozen occurrence object itself is
  not modelled.
- Envelope.EnvelopeRoundTrip: the payload guard of projection-payload.ts is an arbitrary predicate, so what it accepts
  is not modelled.
- Replay.CheckReplay: the JSON text used as a set key is replaced by the pair it encodes.
- FleetStart.SubmitsAndAcquiresAreConserved: React is reduced to clicks and renders that see the latest pending state;
  how a click derives lane key and title from its form is not modelled.
- DispatchReceipt.RetryKeepsFences: malformed expectations, which the source throws on, are a separate result and are
  not compared by their messages.
- Of the onboarding parsers only the inference overrides and the configured models.
- The decoders of tasks, inventory, skills, memory, cron, usage, browsing, autonomy, leases, peer control and the
  operations page are not modelled.
- The server's leases, compare-and-swap and replay, which are not in this repository, and React components, uploads,
  storage and build configuration.
