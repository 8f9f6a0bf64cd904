# A model of OpenLink's CPDLC server, codecs and clients

OpenLink carries controller-pilot data-link messages between aircraft and ground stations. A server keeps
one session per aircraft (an active slot, an inactive slot and a Next Data Authority), stores it in a
key-value store, and broadcasts a view of it to the stations concerned; the controller's client rebuilds a
map of flights from those views. Around this sit a station registry with a reverse index, a bridge to the
Hoppie network with text codecs, and client SDKs in Rust and TypeScript that must make the same decisions.

The project models that logic in the form the program has it - objects with mutating methods and loops
where the program mutates and loops, functions where it computes - and proves what the program is meant to
keep. Check everything with `dafny verify dfyconfig.toml`.

| file | what it holds |
|---|---|
| Session, SessionHistory, Timeline | the two-slot session object and its transitions; invariants and causality over every history of events, and the session read off its history |
| Handler | one envelope: the element loop of application messages, the meta messages, and what an accepted message does |
| Store, Sweeps | several workers reading, computing and writing back with a revision check, at every interleaving; the sweep of a worker left alone |
| Views, Agreement, Mirror | station views, broadcast targets, the client's reconciliation, server-client agreement over whole runs, and what the clients then show |
| Registry, Reachability | the registry with its callsign index, the lease sweep, and the stations a run can reach through the index |
| Presence, Offline | the end of service of stations that go offline or vanish, with the messages and broadcasts it causes |
| MinSequence | the three allocators of message numbers 1 to 63 |
| ResponseChoice | the two choosers of short responses |
| Text | trimming, searching and bounded splitting, shared by the codecs |
| HoppiePoll, Packets, Templates | the poll parser, the `/data2/` packet and NATS subject formats, and template rendering against matching |
| DialogueRules, Dialogues, DialogueQueue | grouping a controller's messages into dialogues, and the queue of cards |
| Words, Layouts, DcduWrap | the words of a text and its visible characters, layouts of words on lines, and word wrap for the 24 by 4 display |
| Common, Sequences, Enumerations | small shared types and list lemmas |

How the parts fit together: the methods of `CPDLCSession` are proved equal to functions on `SessionState`, and
`Timeline` says what those make of any history without naming them; `Handler` proves an accepted envelope equal
to a replay of session events; `Store` proves every stored value equal to the accepted operations applied in
commit order, and so carries the history theorems to every interleaving; `Agreement` runs the same update
function in front of the broadcast and the clients; `Mirror` joins both ends: what a controller sees is what the
history of messages tells.

Some laws one might expect are false of the program. Each is settled by an exact condition, and by concrete
inputs or whole families of inputs for which it fails:

- The two slots need not hold different stations: `SessionHistory.TwoStationsIffNoRelog`,
  `SessionHistory.RelogFillsBothSlots`. One termination therefore need not remove a station, two always do:
  `SessionHistory.OneTerminationLeavesIff`, `Handler.TwoEndServicesClearTheSender`.
- A station pushed out of the inactive slot is not told: `Agreement.LosersAreTargets`,
  `Agreement.EvictedIsNotTold`. Server and clients agree after every action exactly when no action of the
  run does that, and no station comes back with flights it no longer holds: `Agreement.ClientsAgreeIffQuiet`. A
  station that logged on an aircraft, lost it while it was away and comes back with it does so:
  `Agreement.KeptFlightsAreStale`.
- An online station need not be found through the callsign index. After every update lookups find exactly the
  online stations if and only if no update takes a key out of the index that another online station needs, or
  claims one that another online station is under: `Registry.AlwaysScansIff`, `Registry.UpdateKeepsCompleteIff`;
  for one station at the end of any run `Registry.StationFoundIff`; both losses happen in
  `Registry.SharedKeyIsNotFound`.
- Rendering a template and matching the text gives the values back exactly under
  `Templates.RenderThenMatchIff`, and exactly under `Templates.RenderTrimMatchIff` when the text is trimmed
  first; a template whose placeholders are separated by blanks alone never matches anything:
  `Templates.InvisibleTemplateNeverMatches`. Over a whole registry the best match undoes rendering exactly if,
  besides, no definition that outranks the rendered one matches the text: `Templates.ChooseUndoesRenderIff`;
  of two definitions with one template the later one is never chosen: `Templates.LaterTwinIsNeverChosen`.
- A text that matches a template need not be a rendering of it. The texts that match are exactly those of
  `Templates.MatchIff`: the last static part may be missing, and what follows it is not looked at
  (`Templates.LastPartMayBeMissing`, `Templates.LastPartMayBeFollowed`).
- The badge of a closed dialogue need not say how it was answered: it looks at what the closing message itself
  calls for. It is positive exactly under `DialogueRules.ClosingIntentIs`; a composed WILCO is shown as a
  negative closure: `DialogueRules.ComposedWilcoLooksNegative`.
- The `sender>receiver` keys of two pairs are the same exactly if the pairs overlap at a `>`:
  `MinSequence.SessionKeySharedIff`, `MinSequence.SessionKeyCollides`. The allocators agree on a pair exactly up
  to whole rounds of 63 on its key: `MinSequence.AllocatorsAgreeIff`.
- A group of messages need not be one chain of references: groups are kept by the MIN of the first message, and
  MINs come round again. A group is one chain exactly if its aircraft starts at most one chain with that MIN:
  `Dialogues.OneChainIff`. A fresh request that reuses the MIN of a closed dialogue has no card:
  `Dialogues.ReusedMinJoins`, `DialogueQueue.ReusedMinIsHidden`.

Where the code and its documentation disagree the model follows the code: `terminate_sessions_for_station`
documents that it returns every session it changed, but leaves out those in which the station still holds a
slot (`crates/openlink-server/src/acars.rs:670-726`).

## Model

| member | source | states |
|---|---|---|
| Session.CPDLCSession.LogonRequest | crates/openlink-server/src/acars.rs:118-127 | a logon request opens a fresh connection in the active slot if it is free and otherwise replaces the inactive slot, leaving the rest of the session alone |
| Session.CPDLCSession.LogonAccepted | crates/openlink-server/src/acars.rs:130-145 | accepting a logon marks the first slot that holds the station, active before inactive, and changes nothing for a stranger |
| Session.CPDLCSession.ConnectionRequest | crates/openlink-server/src/acars.rs:148-177 | a station already in a slot changes nothing; the designated next authority enters a slot already logged on; anybody else is ignored |
| Session.CPDLCSession.ConnectionAccepted | crates/openlink-server/src/acars.rs:180-196 | the slot becomes connected if it was logged on; without a prior logon the call fails and the session stays as it was |
| Session.CPDLCSession.TerminationRequest | crates/openlink-server/src/acars.rs:207-219 | ending the active connection promotes the inactive one, ending the inactive one frees it, a stranger changes nothing |
| SessionHistory.ReplayKeepsWellFormed | crates/openlink-server/src/acars.rs:118-219 | after any events a connected slot is logged on, the inactive slot is filled only behind a filled active slot, and the aircraft is the same |
| SessionHistory.ActiveStaysUntilTerminated | crates/openlink-server/src/acars.rs:118-232 | whatever else happens, the active station stays and its phase never goes down while nobody terminates it |
| SessionHistory.ActiveChangedMeansTerminated | crates/openlink-server/src/acars.rs:207-219 | a different active station means the run terminated the one it started with |
| SessionHistory.SlotsAreExplained | crates/openlink-server/src/acars.rs:84-203 | causality: every slot of every reachable session has in its history, in order and since the station's present stay began, the request or designation, the logon and the connection acceptance its phase needs; the next authority is the last one designated |
| SessionHistory.ConnectedHasACause | crates/openlink-server/src/acars.rs:148-196 | a connected station was logged on (by request and acceptance, or by designation and its own connection request) and its connection was accepted afterwards |
| SessionHistory.TwoStationsIffNoRelog | crates/openlink-server/src/acars.rs:118-127 | in every session of a run the two slots hold different stations if and only if no logon request of the run goes to the station that is active |
| SessionHistory.RelogFillsBothSlots | crates/openlink-server/src/acars.rs:118-127 | two logon requests to one station fill both slots with it |
| SessionHistory.OneTerminationLeavesIff | crates/openlink-server/src/acars.rs:207-219 | a termination leaves the station in the session if and only if it held both slots; a second one never does |
| Timeline.SessionIsTold | crates/openlink-server/src/acars.rs:118-219 | for every history, the session is the one whose slots hold the stations in the order of requests, entries and terminations, whose next authority is the last designated, and whose first connection of each station is logged on exactly if the history holds an acceptance, or an entry as next authority, since that connection began, and connected exactly if a connection acceptance follows; the second connection of a station is fresh |
| Timeline.ToldNext | crates/openlink-server/src/acars.rs:118-219 | one event takes the session a history tells to the session the longer history tells |
| Handler.HandleApplication | crates/openlink-server/src/acars.rs:374-484 | the validation checks in their order and the element loop over the session object give exactly the specified update or the specified error; an accepted message is forwarded with its number and with exactly the free text its definitions name upper-cased, a refused one is not forwarded |
| Handler.HandleMeta | crates/openlink-server/src/acars.rs:494-594 | each meta message mutates the stored or a new session as specified or yields the specified error; a refused response, a session update and a logon forward do not reach the store |
| Handler.NormalizedKeepsUpdate | crates/openlink-server/src/acars.rs:407-461 | upper-casing the free text of a message never changes what the message does to the session |
| Handler.NormalizedTwice | crates/openlink-server/src/acars.rs:407-419 | a message that is already normalised is forwarded as it is |
| Handler.NormalizedIff | crates/openlink-server/src/acars.rs:407-419 | the forwarded elements are the received ones with the arguments that the definition and the message both call free text in upper case, and nothing else changed |
| Handler.AcceptedIff | crates/openlink-server/src/acars.rs:421-437 | an application message is accepted if and only if the active station of the stored session is connected and the number is 1 to 63; a connection acceptance fails if and only if the first slot of its station has no logon; all other messages are accepted |
| Handler.UpdateIsReplay | crates/openlink-server/src/acars.rs:421-594 | an accepted envelope of any kind does to the session exactly what its sequence of session events does |
| Handler.ApplicationEffect | crates/openlink-server/src/acars.rs:421-461 | an accepted application message sets the next authority to the facility of the last UM160 that carries one and keeps it otherwise; the slots afterwards are the slots before without one occurrence of the sender per UM161, in order |
| Handler.TwoEndServicesClearTheSender | crates/openlink-server/src/acars.rs:421-461 | one UM161 leaves the sender in the session only if it held both slots; two or more clear it |
| Handler.HandshakeConnects | crates/openlink-server/src/acars.rs:494-594 | whatever is stored, a logon request, its acceptance by the station, the station's connection request and the aircraft's acceptance leave the station connected, and take one that was not there through pending and logged on |
| Handler.OnlyItsOwnAnswerCounts | crates/openlink-server/src/acars.rs:494-594 | a refusal, and an acceptance by or for another station, leaves the phase of a station as it was |
| Store.NoLostUpdate | crates/openlink-server/src/acars.rs:596-635 | at every interleaving each key holds exactly what the accepted operations, in the order of their writes, make of nothing, and each of them succeeded on what the ones before it left |
| Store.StepsAreAtomic | crates/openlink-server/src/acars.rs:600-635 | every step leaves store and log alone or is a write that applied its operation to the value the key holds at that moment and touched no other key |
| Store.WriteSucceedsIffUncontended | crates/openlink-server/src/acars.rs:600-635 | after a read, whatever the other workers do, the write is accepted if and only if the operation accepts the value read and nobody wrote that key in between; otherwise nothing is logged |
| Store.NeverDeletes | crates/openlink-server/src/acars.rs:674-729 | at no write of any run is the unconditional delete reached: an operation about to be written never yields nothing |
| Store.KeysStay | crates/openlink-server/src/acars.rs:61-65 | a key, once created, keeps a value, that value keeps its aircraft, the aircraft's address is the key, and the revision never goes down |
| Store.StoredSessionsAreExplained | crates/openlink-server/src/acars.rs:596-635 | the invariants and the causality of session histories hold of every stored session at every interleaving, for the events of the accepted operations on its key |
| Store.StoredSessionsAreTold | crates/openlink-server/src/acars.rs:596-635 | at every interleaving a stored session is the one session that the events of the accepted operations on its key tell |
| Sweeps.SweepTerminatesEverywhere | crates/openlink-server/src/acars.rs:643-729 | in any state of any run, an idle worker that lists the keys in any order and commits undisturbed leaves in the store what terminating the station in every session at once leaves |
| Views.ViewPortrays | crates/openlink-server/src/acars.rs:264-280 | the view sent to a station is the only one that shows each slot the station is in as that slot, with the aircraft as peer and the phase its flags say, the other slots as empty, and the aircraft, its address and the next authority |
| Views.BroadcastTargets | crates/openlink-server/src/server.rs:381-396 | the targets are exactly the stations in a slot and the participants other than the aircraft |
| Views.AtcTab.OnSessionUpdate | crates/openlink-gui/src/main.rs:413-438 | the tab keeps the view; a controller's map gains or replaces the flight while a slot is shown and loses it otherwise; a selection past the end is cleared |
| Views.ReconcileIs | crates/openlink-gui/src/main.rs:413-438 | a view replaces the flight of its aircraft, or else of the peer it names, while it shows a slot, removes it otherwise, and changes no other flight |
| Agreement.SendToTargets | crates/openlink-server/src/server.rs:398-432 | the sending loop, in any order of the target set, updates each reachable target with its own view and nobody else |
| Agreement.LosersAreTargets | crates/openlink-server/src/server.rs:381-396 | a station that loses its slots through a message and takes no part in it is exactly one the message silently evicts from the inactive slot; every other loser is told |
| Agreement.EvictedIsNotTold | crates/openlink-server/src/acars.rs:118-127 | a logon request to a third station takes the inactive slot from a second one that is not a target of the broadcast |
| Agreement.BroadcastShows | crates/openlink-server/src/acars.rs:264-280 | after a broadcast a client shows the session rightly exactly if it was a target or had no entry for the flight, and its other flights are untouched |
| Agreement.DeliverAgreesIff | crates/openlink-server/src/server.rs:381-432 | from agreement, one envelope keeps every client in agreement with the server if and only if it silently evicts no reachable station |
| Agreement.TerminateAllAgrees | crates/openlink-server/src/server.rs:252-304 | ending the service of a station in every session, in any order, keeps all other clients in agreement |
| Agreement.GoOnlineAgreesIff | crates/openlink-server/src/server.rs:436-473 | replaying the snapshots to a station that comes online brings it into agreement if and only if it kept no flight it no longer occupies |
| Agreement.ClientsAgreeIffQuiet | crates/openlink-server/src/server.rs:381-432 | over whole runs: after every action each client holds an aircraft exactly when its station occupies a slot, with the server's view of it, if and only if every action was quiet |
| Mirror.ClientsMirrorIffQuiet | crates/openlink-server/src/server.rs:381-432 | over whole runs: after every action each controller lists exactly the aircraft with its station in a slot, each slot in its place and in the phase its flags say, if and only if every action was quiet |
| Mirror.ClientsShowHistory | crates/openlink-server/src/server.rs:381-432 | in a quiet run a controller lists an aircraft exactly if the history of its messages gives the station a seat, in the seat and phase that history tells, with the next authority designated last |
| Agreement.KeptFlightsAreStale | crates/openlink-server/src/server.rs:436-473 | the run in which a station comes online, is asked to log on an aircraft, goes offline and comes back with the flights it had: all agree before the last action, which is not quiet, and nobody corrects the station after it |
| Registry.StationRegistry.LookupCallsign | crates/openlink-server/src/station_registry.rs:116-136 | a lookup goes from the key through the index to the entry it names, without looking at its status; under a sound index the entry found is online and its callsign has that key |
| Registry.StationRegistry.UpdateStatus | crates/openlink-server/src/station_registry.rs:139-186 | the puts and deletes in registry and index make the specified new registry, for online and offline updates and changed callsigns |
| Registry.EntriesAreLastReports | crates/openlink-server/src/station_registry.rs:139-186 | after any run the registry holds an entry exactly for the stations that reported, with status, endpoint, network address and time of their last report |
| Registry.UpdateKeepsSound | crates/openlink-server/src/station_registry.rs:139-186 | every update keeps the index sound: each key points to an online entry whose upper-cased callsign it is |
| Registry.LookupIsSound | crates/openlink-server/src/station_registry.rs:116-136 | a lookup of a sound registry finds only online entries under the key, misses only absent keys, and no station id is the target of two keys |
| Registry.UpdateKeepsCompleteIff | crates/openlink-server/src/station_registry.rs:139-186 | an update keeps every online entry the one its key points to if and only if it neither drops the key of another online entry nor claims it |
| Registry.CompleteIffScans | crates/openlink-server/src/station_registry.rs:112-136 | under a sound index, every online entry is the one its key points to if and only if every lookup finds exactly what a scan for an online entry of the callsign finds |
| Registry.AlwaysScansIff | crates/openlink-server/src/station_registry.rs:112-186 | over whole runs: lookups equal scans after every update if and only if no update of the run drops or claims the key of another online entry |
| Registry.StationFoundIff | crates/openlink-server/src/station_registry.rs:112-186 | at the end of any run a lookup finds an online entry if and only if no update of another station took its key since its own last update |
| Registry.RunIsSound | crates/openlink-server/src/station_registry.rs:116-186 | in every run the index is sound and every entry comes from an update of its own station |
| Registry.LookupIsScan | crates/openlink-server/src/station_registry.rs:112-136 | if no two station ids ever share an upper-cased callsign, every lookup equals the scan it replaces |
| Registry.SharedKeyIsNotFound | crates/openlink-server/src/station_registry.rs:139-186 | two stations under one callsign: the second to come online hides the first, and when the first goes offline the second is online and not found |
| Registry.StationRegistry.ListEntries | crates/openlink-server/src/station_registry.rs:189-201 | the listing holds every entry once and nothing else |
| Registry.StationRegistry.ExpireStaleOnline | crates/openlink-server/src/station_registry.rs:206-230 | the sweep returns exactly the online entries older than the lease, each once, sets just those offline, and removes just their keys from the index, which stays sound; it is a run of offline updates, one for each entry returned |
| Registry.SweepIsUpdates | crates/openlink-server/src/station_registry.rs:206-230 | sweeping any listing gives the registry that one offline update for each stale entry of it gives, in its order |
| Registry.ExpiredIffSilent | crates/openlink-server/src/station_registry.rs:206-230 | after any run a sweep expires a station if and only if its last report was that it is online, and longer ago than the lease: every online report renews it |
| Presence.SessionStore.ListSessionsForCallsign | crates/openlink-server/src/acars.rs:643-668 | the listing holds exactly the sessions whose aircraft or one of whose slots has the callsign, each once |
| Presence.SessionStore.TerminateSessionsForStation | crates/openlink-server/src/acars.rs:674-729 | the station is terminated once in every session, no other session changes, and the sessions returned are exactly the listed ones it no longer occupies |
| Presence.OfflineAllEffect | crates/openlink-server/src/server.rs:252-304 | after a series of stations went offline each of them has one occurrence less per departure, not below zero, in every session; all other connections stay in order; sessions without any of them are unchanged |
| Offline.HandleStationOffline | crates/openlink-server/src/server.rs:252-304 | the station is terminated in every session; each released session gives one END SERVICE message to its aircraft, if that is configured and the registry finds the aircraft, and one broadcast |
| Offline.EndsAsTerminateAll | crates/openlink-server/src/server.rs:252-304 | terminating everywhere first and broadcasting the released sessions then gives sessions and clients what terminating and broadcasting session by session gives |
| Offline.EndServicesTell | crates/openlink-server/src/server.rs:262-296 | a message is sent if and only if it is about the station, for the aircraft of a session that names the station and does not have it in both slots, and goes to the network address of the entry the index has for that aircraft's callsign; no aircraft is told twice |
| Offline.PresenceTick | crates/openlink-server/src/server.rs:172-198 | one tick expires exactly the stale leases and changes the registry by exactly their offline updates; sessions and clients end up as if the expired stations had gone offline one after the other, and exactly the aircraft that lose one of them and are found through the index are told, at the address found |
| Offline.TakeOffline | crates/openlink-server/src/server.rs:175-190 | the loop over the expired stations, all of them unreachable from the start, gives what their departures one after the other give |
| Offline.DeparturesAgree | crates/openlink-server/src/server.rs:172-304 | any series of departures keeps server and clients in agreement |
| Reachability.AlwaysReachesIff | crates/openlink-server/src/server.rs:417-431 | the reachable stations of a run are those the registry of the same run finds, after every action, if and only if no status report of the run drops or claims the key of another online station |
| Reachability.TickContinuesRun | crates/openlink-server/src/server.rs:172-198 | a tick continues any run: the departures of the expired stations report exactly the updates the sweep made, so that the registry of the longer run is the swept one |
| MinSequence.SessionTracker.NextMin | crates/openlink-hoppie/src/session.rs:60-64 | the bridge's counter goes 1 to 63 and starts again, per aircraft and station |
| MinSequence.SessionTracker.ResetSession | crates/openlink-hoppie/src/session.rs:134-140 | a reset forgets the counter and both number translations of that pair and of no other |
| MinSequence.OpenLinkClient.NextMinForSession | crates/openlink-sdk/src/client.rs:229-239 | the Rust client returns the stored number, or 1, and stores the next one |
| MinSequence.TypeScriptSequences.NextMinForSession | clients/openlink-sdk-ts/src/envelope.ts:11-24 | the TypeScript client returns the stored number, or 1, and stores the next one |
| MinSequence.SessionKeySharedIff | clients/openlink-sdk-ts/src/envelope.ts:13-15 | two different pairs share a key if and only if one sender continues the other by a `>` and a text that, followed by a `>`, starts the receiver of the other |
| MinSequence.SessionKeyInjective | clients/openlink-sdk-ts/src/envelope.ts:13-15 | pairs whose senders contain no `>` have different keys |
| MinSequence.SessionKeyCollides | clients/openlink-sdk-ts/src/envelope.ts:13-15 | two different pairs share a key when a sender contains `>` |
| MinSequence.AllocatorsAgreeIff | crates/openlink-sdk/src/client.rs:229-249 | after any run on any pairs, the clients and the bridge would give a pair the same number if and only if the allocations since the last reset, of its key and of the pair itself, are equal up to whole rounds of 63 |
| MinSequence.AllocatorsAgree | crates/openlink-sdk/src/client.rs:229-249 | they give a pair the same number after any run without an operation on another pair that shares its key |
| MinSequence.WindowIsPermutation | crates/openlink-hoppie/src/session.rs:60-64 | any 63 consecutive numbers of the bridge for a pair without a reset are each of 1 to 63 once, whatever happens on other pairs in between |
| MinSequence.ClientWindowIsPermutation | crates/openlink-sdk/src/client.rs:229-249 | any 63 consecutive numbers of a client for a key without a reset of it are each of 1 to 63 once, also when several pairs share the key |
| ResponseChoice.EffectiveIsMax | crates/openlink-models/src/cpdlc.rs:374-381 | the effective attribute is one of the elements' attributes and no element's is higher, with NE counted as N |
| ResponseChoice.ChooseFromCatalog | clients/openlink-sdk-ts/src/cpdlc-runtime.ts:100-129 | the TypeScript loop offers the captions and downlink elements exported with the first entry of the highest priority, or its attribute's if there are none, and the W/U intents if there is no entry; for a catalog exported from an attribute table it offers what the Rust chooser offers |
| ResponseChoice.ExportedEntry | crates/openlink-models/examples/export_cpdlc_catalog.rs:47-90 | the exported priorities order entries as the attributes do, and an exported entry offers the intents of its attribute |
| ResponseChoice.BestChosen | crates/openlink-sdk/src/cpdlc_runtime.rs:68-97 | the Rust chooser offers exactly what the first best catalog entry offers |
| ResponseChoice.ChoiceIgnoresOrder | crates/openlink-sdk/src/cpdlc_runtime.rs:68-97 | the choice depends on which elements are there, not on their order or repetition |
| HoppiePoll.ParsePollResponse | crates/openlink-hoppie/src/hoppie_client.rs:156-223 | on any input the parser ends and gives the error or the messages of the specification |
| HoppiePoll.PollRoundTrip | crates/openlink-hoppie/src/hoppie_client.rs:156-244 | parsing a printed list of messages with plain words and brace-balanced packets, with any blanks and line ends between the blocks, gives that list back |
| HoppiePoll.TypeRoundTripIff | crates/openlink-hoppie/src/hoppie_client.rs:32-48 | a message type is read back from its word exactly if lower-casing leaves the word alone and it names no other type |
| HoppiePoll.NextBlockIff | crates/openlink-hoppie/src/hoppie_client.rs:167-206 | in any text the next block is what stands, balanced, between its first brace, after blanks and line ends only, and the brace that closes it |
| HoppiePoll.BlocksAreRead | crates/openlink-hoppie/src/hoppie_client.rs:167-221 | from any blocks followed by something that is none, the messages of all blocks are read in order, blocks that give no message are skipped, and what was read before the end is kept |
| HoppiePoll.AnyTextIsBlocks | crates/openlink-hoppie/src/hoppie_client.rs:167-221 | every text is blocks followed by something that is none |
| HoppiePoll.BlockSpells | crates/openlink-hoppie/src/hoppie_client.rs:226-244 | a block gives a message exactly if it is two words and a packet, with or without braces around the packet, and nothing otherwise |
| HoppiePoll.PollFailsIff | crates/openlink-hoppie/src/hoppie_client.rs:156-163 | parsing fails if and only if the answer does not begin with `ok`, blanks aside |
| HoppiePoll.PollReads | crates/openlink-hoppie/src/hoppie_client.rs:156-221 | every other answer gives the messages of the blocks behind `ok` |
| Packets.PacketRoundTripIff | crates/openlink-hoppie/src/hoppie_client.rs:266-308 | parsing a formatted packet gives it back if and only if its first three fields contain no slash, its reference is not the empty string and its body does not end in a blank |
| Packets.ParseIff | crates/openlink-hoppie/src/hoppie_client.rs:266-292 | a text is parsed to a packet if and only if it is the prefix and the packet's fields with slashes between them, the body possibly missing with its slash |
| Packets.SubjectRoundTripIff | crates/openlink-sdk/src/subjects.rs:67-77 | parsing a printed subject gives the address back if and only if the network contains no dot |
| Packets.WrongKindIff | crates/openlink-sdk/src/subjects.rs:122-141 | a subject of one kind is taken for another if and only if the network has that kind as its second label |
| Packets.SubjectsAreInverse | crates/openlink-sdk/src/subjects.rs:122-141 | for dot-free networks outbox and inbox subjects have the documented form, give their address back to their own parser and nothing to the other |
| Packets.ParseKindIff | crates/openlink-sdk/src/subjects.rs:122-141 | a text is parsed to an address if and only if it is a subject of that kind for it, of any version and with a dot-free network |
| Templates.SplitBuild | crates/openlink-hoppie/src/translator.rs:234-253 | the static parts of a well-bracketed template are the texts between its placeholders |
| Templates.SplitUnclosed | crates/openlink-hoppie/src/translator.rs:234-253 | a bracket that is never closed ends the static parts, and what follows it is none |
| Templates.Split | crates/openlink-hoppie/src/translator.rs:234-253 | the splitting loop gives the specified parts, also for brackets that are never closed |
| Templates.Render | crates/openlink-models/src/cpdlc.rs:595-605 | the replacement loop fills one placeholder per argument |
| Templates.RenderFills | crates/openlink-models/src/cpdlc.rs:595-605 | filling placeholders one after the other in place interleaves the static parts with the values, for any number of values; only the value filled in last may hold an opening bracket |
| Templates.ExtractValuesBetweenSegments | crates/openlink-hoppie/src/translator.rs:257-289 | the extraction loop gives the specified values |
| Templates.ExtractTail | crates/openlink-hoppie/src/translator.rs:257-289 | extraction gives back the values between visible separators if none of them holds the start of its separator |
| Templates.RenderThenMatchIff | crates/openlink-hoppie/src/translator.rs:121-150 | matching a rendered text gives the values back if and only if the interior separators are visible, the values are non-empty and trimmed, and no separator occurs early |
| Templates.MatchIff | crates/openlink-hoppie/src/translator.rs:121-150 | a text matches a template with these values if and only if it begins with the first static part and holds each non-empty value in front of the first occurrence of the next static part, blanks aside, where the last part need not occur |
| Templates.LiteralMatchIff | crates/openlink-hoppie/src/translator.rs:121-129 | a template without placeholders matches exactly the texts equal to it up to the case of ASCII letters |
| Templates.LastPartMayBeMissing | crates/openlink-hoppie/src/translator.rs:257-289 | a text that ends with the last value matches although the template goes on |
| Templates.LastPartMayBeFollowed | crates/openlink-hoppie/src/translator.rs:257-289 | a text that goes on behind the last static part matches |
| Templates.InvisibleTemplateNeverMatches | crates/openlink-hoppie/src/translator.rs:121-150 | a template with an invisible separator between placeholders matches no text at all |
| Templates.RenderTrimMatchIff | crates/openlink-hoppie/src/translator.rs:76-150 | matching the trimmed rendering gives the values back if and only if, besides, the first static part is blank or begins visibly; for a template without placeholders if and only if it has no blanks at its ends |
| Templates.MatchBodyToElement | crates/openlink-hoppie/src/translator.rs:76-109 | the chosen definition is the first of the highest specificity among those that match, with the values it matched; the trimmed text as DM67 or UM169 if there is none |
| Templates.SpecificityCounts | crates/openlink-hoppie/src/translator.rs:111-116 | the specificity of a template is the visible length of its static parts, added up |
| Templates.ChooseUndoesRenderIff | crates/openlink-hoppie/src/translator.rs:76-109 | for every registry and every definition of it: choosing on the rendered text gives that definition and the values back if and only if matching the trimmed text can, and every other definition of the direction that matches it is less specific, or as specific and later |
| Templates.LaterTwinIsNeverChosen | crates/openlink-hoppie/src/translator.rs:76-109 | of two definitions with the same template the later one is never chosen, whatever the text |
| DialogueRules.CardAmongOwn | crates/openlink-gui/src/components/atc_view.rs:395-532 | a card depends on the messages of its own aircraft only |
| DialogueRules.CandidateIff | crates/openlink-gui/src/components/atc_view.rs:29-47 | a message takes part in dialogues if and only if it has a MIN, its text holds no LOGON in any case, and it is no acknowledgement by its elements or, without an envelope, by its text |
| DialogueRules.ClosingIds | crates/openlink-models/src/cpdlc.rs:868-879 | the closing elements are exactly the up- and downlink elements of the short responses other than STANDBY, the deferring ones those of STANDBY and UM2 |
| DialogueRules.AnswerCloses | crates/openlink-gui/src/components/atc_view.rs:111-156 | a message that consists of a short response closes the dialogue unless that is STANDBY, and no message both closes and stands by |
| DialogueRules.LocalShortResponseIff | crates/openlink-gui/src/components/atc_view.rs:49-63 | a stored row is a short response if and only if its text, blanks and ASCII case aside, is the label of that response |
| DialogueRules.RecentIff | crates/openlink-gui/src/components/atc_view.rs:214-222 | a closing message is recent for less than 61 seconds |
| DialogueRules.CardShowsRequest | crates/openlink-gui/src/components/atc_view.rs:402-530 | a card is about the open request itself, or about the first message of the aircraft with the MIN a STANDBY or fresh closure refers to; it shows that message's text and MIN and, each once, exactly the responses its elements and attribute call for, UNABLE and STANDBY for a Y message, WILCO, UNABLE and STANDBY if nothing is called for |
| DialogueRules.CardShowsState | crates/openlink-gui/src/components/atc_view.rs:416-503 | time, flag and class of a card say exactly whether the latest message stands by, from which side, closes positively or negatively, or is on its way |
| DialogueRules.ClosingIntentIs | crates/openlink-gui/src/components/atc_view.rs:224-249 | a closing message counts as positive if and only if its text is a bare WILCO, ROGER or AFFIRM, or it is no bare response and calls for one of those and for neither UNABLE nor NEGATIVE |
| DialogueRules.ComposedWilcoLooksNegative | crates/openlink-gui/src/components/atc_view.rs:224-249 | a WILCO with more text in an envelope, all of its elements calling for no response, is shown as a negative closure without a badge |
| DialogueRules.CardOffersAnswers | crates/openlink-gui/src/components/atc_view.rs:397-532 | the MIN a card answers is that of a logged message of the same aircraft; buttons appear only with such a MIN and at the highest priority; the lowest priority is exactly that of recent closures; after the controller's own standby no standby is offered |
| DialogueRules.FindByMinIsFirst | crates/openlink-gui/src/components/atc_view.rs:251-259 | the message found is the first of its aircraft with that MIN that is neither an acknowledgement nor a logon line |
| DialogueRules.FindAmongOwn | crates/openlink-gui/src/components/atc_view.rs:251-259 | the message a response answers is the same among all messages and among the aircraft's own |
| Dialogues.RootsAreChains | crates/openlink-gui/src/components/atc_view.rs:355-378 | the one-pass map holds, for each aircraft and MIN, the start of the reference chain of the latest message with it, each step of the chain going to the latest earlier message with the referenced MIN |
| Dialogues.TracksAreDialogues | crates/openlink-gui/src/components/atc_view.rs:378-393 | each group is the set of an aircraft's messages whose chains start at a message with one MIN: its last index is the greatest member, it is closed if and only if some member closes, and its MINs are those of its members |
| Dialogues.OneChainIff | crates/openlink-gui/src/components/atc_view.rs:355-393 | the members of a group share one chain start if and only if no two chain starts of the aircraft have its MIN |
| Dialogues.ReusedMinJoins | crates/openlink-gui/src/components/atc_view.rs:355-393 | a fresh request with the MIN of an answered one starts its own chain and joins the closed group |
| Dialogues.RootInPrefix | crates/openlink-gui/src/components/atc_view.rs:367-376 | later messages never move a message to another dialogue |
| DialogueQueue.GroupDialogues | crates/openlink-gui/src/components/atc_view.rs:355-393 | the loop over the messages builds the specified groups |
| DialogueQueue.BuildPendingDialogues | crates/openlink-gui/src/components/atc_view.rs:347-542 | the queue holds the card of each dialogue to show once, whatever the order of the hash map, lower priority numbers first and among equal ones the latest first |
| DialogueQueue.ShownIff | crates/openlink-gui/src/components/atc_view.rs:397-401 | a dialogue has a card if and only if no member closes it or its latest message does and is at most 60 seconds old |
| DialogueQueue.ReusedMinIsHidden | crates/openlink-gui/src/components/atc_view.rs:397-401 | such a fresh request has no card |
| DialogueQueue.CardsNameTheirAircraft | crates/openlink-gui/src/components/atc_view.rs:467-474 | every card names the aircraft of its dialogue, which is the addressee of an outgoing and the sender of an incoming latest message |
| DialogueQueue.AircraftDoNotMix | crates/openlink-gui/src/components/atc_view.rs:347-542 | of any queue built from a merged log, the cards naming an aircraft are, as a multiset, those of any queue built from its messages alone |
| Words.SplitKeepsInk | crates/openlink-gui/src/components/a320_view.rs:171 | the words of a text hold all of its visible characters, in order, and nothing else |
| Words.WovenSplits | crates/openlink-gui/src/components/a320_view.rs:171 | words written with blanks before, between and after them are split into those words |
| Words.SplitIsWoven | crates/openlink-gui/src/components/a320_view.rs:171 | every text is its words with blanks before, between and after them |
| DcduWrap.DcduWrap | crates/openlink-gui/src/components/a320_view.rs:167-229 | for every text, always four lines of 24 characters that show groups of its words in upper case, wide words in pieces; no line can take the word that comes next and no layout on four lines keeps more words; the visible text is a prefix of the input's in upper case, and all of it if and only if the words and pieces can be laid out on four lines at all |
| DcduWrap.OnePageShowsMost | crates/openlink-gui/src/components/a320_view.rs:167-229 | for any words there is one page only that shows full lines of them, as many as there are words or room for |
| DcduWrap.PiecesAre | crates/openlink-gui/src/components/a320_view.rs:173-181 | the pieces of the words are words of at most 24 characters and hold the same visible text |
| DcduWrap.CutLongWord | crates/openlink-gui/src/components/a320_view.rs:173-192 | the inner loop flushes the line under way and cuts a wide word into the lines of its pieces up to the last, which is left over; if the page is full before, it shows what any layout could keep of the text |
| Layouts.GreedyIsOptimal | crates/openlink-gui/src/components/a320_view.rs:194-214 | filling a line with as many words as it holds never costs a line |
| Layouts.PackedKeepsMost | crates/openlink-gui/src/components/a320_view.rs:194-214 | lines filled one after the other keep as many words as any layout on as many lines, and all of them if and only if there is a layout of all |

## Left out

- NATS, JetStream, HTTP and JSON: the store is a map with revisions, serialisation is assumed to round-trip, and a send or a store call does not fail for reasons of its own; a message to a reachable client arrives, in order.
- The registry's three writes are one step: a crash between them, and the ignored error of deleting an index key, are not modelled.
- Offline.PresenceTick: runs the sweep and the terminations without other workers in between; interleaved terminations are the `Sweep` jobs of `Store`.
- Reachability.AlwaysReachesIff: supposes that a station keeps one id and one callsign; a message that spells a callsign in another case than its station reaches that station in the program and nobody in `Agreement`.
- Agreement.ClientsAgreeIffQuiet: supposes that aircraft callsigns are distinct and that no reachable station uses one, and handles one envelope at a time, as the server's event loop does.
- Views of the aircraft's own side, the aircraft tab, and the automatic replies of clients.
- Upper- and lower-casing outside ASCII are arbitrary functions; strings are sequences of characters, so byte offsets and Unicode normalisation are not modelled.
- DcduWrap.DcduWrap: the upper case of a character is any text of visible characters, as Unicode's is. The program's one loop body is three methods here, one of them the inner loop.
- Templates.MatchBodyToElement: the conversion of a matched text to a typed argument is left out, it cannot fail and does not influence the choice.
- MinSequence.SessionTracker.ResetSession: the sets of messages already seen are not part of the model, a reset does not touch them.
- DialogueQueue.BuildPendingDialogues: the standard library's stable sort is a function here, and the hash map's iteration order is arbitrary.
- The routing of a forwarded message to its destination.
- Clocks, message ids and random values are parameters.
- The message registry is a parameter (a table of definitions or of attributes) instead of the full list of ICAO Doc 4444 messages.
- Rendering, internationalisation, persistence and timers of the user interfaces.
- OIDC and JWT issuing, credentials, the bridge's polling loop, the command line and the load generator.
