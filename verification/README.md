# A verified model of an encrypted chat client and server

This project models the protocol and the bookkeeping of a chat system written in C++:
a multi-threaded server, a GTK client, and the code they share. It proves what holds in
every run of the model. `dafny verify dfyconfig.toml` checks everything.

## What is modelled

**Session keys.** A login takes four messages: the server's nonce in clear, a request in
hybrid RSA/AES, an answer in hybrid mode followed by a test value under the new AES key,
and the client's reply to the test. The key can then be refreshed any number of times.
Each side changes mode, key and counters at its own moment while packets are in flight.
`Sessions` holds the handlers as functions, `SessionObjects` the two session classes whose
methods are proved equal to them, `SessionKeys` the two ends joined by two first-in
first-out wires in every interleaving, `SessionKeyTheorems` what follows, and
`SessionKeyGuards` the exact conditions of the assumptions about refreshes and the login, and
`LoginOutcomes` what each handler does with any packet it is given. The invariant
runs each receiver over its wire: everything in flight is opened and the ends finish in
step. `ServerPackets` drops the assumption that the client is silent during a refresh: the
server then drops or closes on what it cannot open, and the client still opens everything.
`KeyXor` is the in-place exclusive or.

**Names, channels and rosters.** `ChatServer` has sessions, channel objects and the
registry of names; `Roster` is the client's list of users, built only from packets;
`ChatObjects` has the methods with their loops; `ChatInvariants` and `ChatTheorems` the
results. `ChatOutcomes` is the same server without member lists and packets, which every step
and every run is proved to follow.

**Admission.** `Admission` and `AdmissionObjects` are the session manager with its two
limits and its waiting queue; `AdmissionTheorems` has the results, and `AdmissionRace` runs
the two reads of a new connection apart.

**Threads.** `Dispatch` interleaves producers and workers around the locked queue
(`LockQueues`) and the semaphore; `DispatchObjects` has one method per atomic step.
`Barrier` and `BarrierObjects` are the channel updater. `Drain` and `DrainObjects` are the
receive queue that two filtered updates drain; `Opcodes` has the two dispatch columns.

**Octets on the wire.** `Octets` stores integers and strings under either byte order.
`BufferFormat`, `Buffers` and `BufferObjects` are the byte buffer; `Base64` the streaming
codec; `Wires`, `Frames`, `Hybrid` and `PacketObjects` the frame and the hybrid envelope.
`BufferLayout`, `WireLayout` and `Base64Numbers` say what the formats mean, octet by octet and
as numbers.
`OctetRefinement` joins them to `Sessions`: the octets of a packet give the same verdict as
the symbolic packet.
`CountedPtr` and `CountedPtrObjects` are the reference-counted handles.

Ciphertexts are symbolic: a box opens only with the key and mode it was sealed with, and
has the length that the cipher gives it. Random octets, the clock, the user table and the
outcomes of hash comparisons are parameters. Octets are integers from 0 to 255; where the
program combines disjoint bits with `|`, the model adds.

## Where a promise does not hold as stated

Each has a lemma that gives the exact condition.

- Starting a refresh is harmless in every continuation if and only if none is outstanding
  (`SingleRefreshIff`). The server blocks a new refresh in one state only,
  `src/server/session/session.cpp:239`. `OverlappingRefreshes` follows one such schedule.
- A packet that the client sends is harmless in every continuation if and only if the
  client is not waiting for the empty refresh packet (`SilenceIsNeeded`); the source has a
  TODO for this pause at `src/client/session/session.cpp:340`. Even when the new key equals
  the old one, the packet takes the server's counter along, and the client's next packet,
  counted from zero, is taken for a replay.
- Starting a login is harmless in every continuation if and only if nothing was queued
  before it; otherwise the nonce can leave sealed, and the client cannot open it
  (`LoginNeedsEmptyQueue`).
- The rejection `"rej"` is addressed to the key file of the empty user name, because the
  file names are brought up to date on the accepting path only
  (`src/server/session/session.cpp:480` against 509). The rejected client can read it only
  under that name (`RejectionReadIff`).
- Creating a channel with the empty name always succeeds, and takes the registration away
  from an occupied channel of that name (`CreateExact`).
- A roster is exact in every run if and only if no two usable names of the user table
  differ only in ASCII case (`RostersExactIff`).
- `AddSession` reads the waiting queue and the queue of new sessions one after the other
  without a lock over both. `OverIff` says exactly which runs pass the queue limit,
  `QueueLimitOverrun` is one of them.
- The wait of a channel sweep is a barrier if and only if the counter does not fall to zero
  before the last update is scheduled (`RoundIff`); `TooEarly` is a run in which it returns
  early.
- `EncodeBase64` fails its own assertion on the empty string, because the size minus two
  wraps (`EncodeBase64`).
- A string survives the byte buffer if and only if it holds no zero octet (`TextIff`).
- Packets under one key all arrive if and only if they are no more than 2^32
  (`AllArriveIff`).
- The comment on `MapSessionFilter` says that it processes thread-safe packets only; the
  code, which the model follows, also takes those that may be processed in place
  (`WhoConsumes`).
- The assignment of a handle reads its source after it has released the target. It is
  defined if and only if handles other than the target hold the objects that the two
  handles lie in (`AssignSafeIff`, `AssignDefinedIff`); `h = h->member` with h the only
  holder is not (`MemberDestroyed`, `NextOfOnlyHolder`).
- `deleteSmartPointer` is sound if and only if another handle holds the session
  (`DeleteSmartPointerIff`).

## Model

| member | source | states |
|---|---|---|
| SessionKeys.EveryPacketOpens | src/shared/session/sessionbase.cpp:153-165 | in every interleaving of login, chat and refreshes that respects the assumptions, no receiver ever meets a packet it cannot open or whose counter is behind |
| SessionKeys.InvStep | src/server/session/session.cpp:422-565 | every step of either end keeps the invariant: what is in flight opens in order and the ends finish in step |
| SessionKeys.RequestAccepted | src/server/session/session.cpp:443-499 | for a known short name and the echoed nonce, the server answers in hybrid mode, holds the combined key with counters at zero, and sends the test value under it |
| ServerPackets.EveryServerPacketOpens | src/shared/session/sessionbase.cpp:153-165 | in every run with at most one refresh outstanding, whenever the client sends and whether the server drops or closes on what it cannot open, the client opens every packet from the server |
| ServerPackets.LooseStepKeeps | src/server/session/session.cpp:552-565 | every step keeps the client's wire openable and lets at most one fitting answer be on its way |
| SessionKeyTheorems.QuietMeansSameKey | src/shared/session/sessionbase.cpp:153-165 | whatever the run was, once nothing is in flight both ends hold the same key and no refresh is open |
| SessionKeyTheorems.Settles | src/server/session/session.cpp:224-251 | from every reachable authenticated state every schedule of deliveries ends within a bound, and when nothing is left to deliver both ends hold one key and no exchange is open |
| SessionKeyTheorems.HandshakeOutcome | src/server/session/session.cpp:422-550 | the honest login authenticates both ends, on the key Xc xor Xs, if and only if the name is at most 16 octets, known and unused; the server then holds that name |
| SessionKeyTheorems.KeyTestIff | src/server/session/session.cpp:517-546 | in 32-bit arithmetic the client authenticates exactly on N-1 and then sends N-2, the server exactly on N-2 and a free name |
| SessionKeyTheorems.RefreshAgrees | src/client/session/session.cpp:313-344 | one refresh from rest ends with both ends on the exclusive or of the two halves, and all four counters at zero |
| SessionKeyTheorems.OverlappingRefreshes | src/server/session/session.cpp:237-249 | an illustration: on one schedule of two overlapping refreshes the keys end equal if and only if the client drew the same half twice |
| SessionKeyGuards.SilenceIsNeeded | src/client/session/session.cpp:325-341 | in every reachable session with room in the counters, a packet that the client sends is harmless in every continuation if and only if the client is not between its answer and the empty refresh packet |
| SessionKeyGuards.SingleRefreshIff | src/server/session/session.cpp:224-251 | in every reachable authenticated session with room in the counters, starting a refresh is harmless in every continuation if and only if none is outstanding |
| SessionKeyGuards.LoginNeedsEmptyQueue | src/shared/session/sessionbase.cpp:161-165 | starting a login on a fresh connection is harmless in every continuation if and only if nothing was queued before it |
| LoginOutcomes.RequestIff | src/server/session/session.cpp:442-516 | a complete request is accepted if and only if its name has at most 16 octets and is known and the nonce is the server's; a short name is kept in either case, a refused session is closed |
| LoginOutcomes.RequestAnswers | src/server/session/session.cpp:476-514 | the octets of the two packets after acceptance and of the one after refusal |
| LoginOutcomes.ShortIgnored | src/server/session/session.cpp:453-457 | a request or a proof that ends too early changes nothing |
| LoginOutcomes.ProofIff | src/server/session/session.cpp:517-546 | N-2 and a free name authenticate and queue the first packets; anything else rejects and closes |
| LoginOutcomes.NameHeld | src/server/session/session.cpp:53-61 | in every run, from the acceptance of the request on, the server holds the name that the client sent |
| LoginOutcomes.RequestHolds | src/client/session/session.cpp:350-374 | the client's request is its name, its half, the server's nonce and its own, signed and sealed |
| LoginOutcomes.AnswerIff | src/client/session/session.cpp:377-416 | "acc" with the client's nonce moves the login on with the combined key; another nonce rejects, another word also closes |
| LoginOutcomes.OfferIff | src/server/session/session.cpp:224-251 | a new half is offered, under the current key, exactly by an authenticated session that is not about to switch |
| LoginOutcomes.AnswerCombined | src/server/session/session.cpp:552-565 | the empty packet leaves under the old key, then the combined key holds; an answer nobody asked for is ignored |
| LoginOutcomes.OfferTaken | src/client/session/session.cpp:313-344 | for every payload: switch on none, answer on 32 octets, nothing on any other size |
| LoginOutcomes.ChatReplies | src/server/session/session.cpp:140-147 | an open, authenticated session's packet of a member's type has its replies queued, and no other has |
| SessionKeyTheorems.RejectionReadIff | src/server/session/session.cpp:504-514 | a client whose request is refused, for its name or its nonce, can open the rejection if and only if its name is empty |
| SessionObjects.ServerSession.SealToSocket | src/shared/session/sessionbase.cpp:95-151 | seals with the current mode and key, advances the 32-bit counter under AES only, and puts the packet on the wire |
| SessionObjects.ServerSession.SwitchAfterSend | src/shared/session/sessionbase.cpp:153-165 | the change of key or mode just after a packet has left |
| SessionObjects.ServerSession.SendPacketToSocket | src/shared/session/sessionbase.cpp:83-168 | sealing, then the switch; nothing on a closed session |
| SessionObjects.ServerSession.ReceiveFromSocket | src/shared/session/sessionbase.cpp:203-312 | a packet is accepted exactly when mode, key and counter test allow it, and then moves the receive counter |
| SessionObjects.ServerSession.StartLogin | src/server/session/session.cpp:428-441 | queues the nonce and orders the mode switch behind it |
| SessionObjects.ServerSession.HandleLoginRequest | src/server/session/session.cpp:442-516 | reads name, half and nonces, and accepts or rejects as the function does |
| SessionObjects.ServerSession.AcceptRequest | src/server/session/session.cpp:476-502 | answer, combined key, counters at zero, test value, in this order |
| SessionObjects.ServerSession.RejectRequest | src/server/session/session.cpp:504-514 | the rejection leaves and the session closes |
| SessionObjects.ServerSession.FinishLogin | src/server/session/session.cpp:517-546 | authenticated after N-2 if the name is free, rejected and closed otherwise |
| SessionObjects.ServerSession.HandleLogin | src/server/session/session.cpp:422-550 | the three login states together |
| SessionObjects.ServerSession.GenerateNewKey | src/server/session/session.cpp:224-251 | offers a new half unless a switch is due, under the current key |
| SessionObjects.ServerSession.HandleRefreshKey | src/server/session/session.cpp:552-565 | combines the halves, sends the empty packet and switches; ignored when no half was offered |
| SessionObjects.ClientSession.HandleRefreshKey | src/client/session/session.cpp:313-344 | the three cases by size: switch, answer, corrupted |
| SessionObjects.ClientSession.HandleLoginAnswer | src/client/session/session.cpp:377-416 | checks the nonce, combines the key and loads the test value; rejected otherwise |
| SessionObjects.ClientSession.HandleLogin | src/client/session/session.cpp:346-446 | the client's three login states |
| KeyXor.Xor | src/shared/crypto/crypto.cpp:74-83 | every bit of the buffer is inverted exactly where the cycling key has a bit; throws, unchanged, exactly when data is there and the key is empty |
| KeyXor.XorBit | src/shared/crypto/crypto.cpp:80 | a bit of the result is set exactly when that bit differs in the two octets |
| KeyXor.XorInverts | src/shared/crypto/crypto.cpp:74-83 | so the buffer's new contents are the old ones, bit by bit, against the key restarted at its end or after 65536 octets |
| KeyXor.XorCommutes | src/shared/crypto/crypto.cpp:74-83 | for halves of equal length the order does not matter, so both ends get one key |
| KeyXor.XorCancels | src/shared/crypto/crypto.cpp:74-83 | applying the same key twice gives the data back |
| KeyXor.XorInjective | src/shared/crypto/crypto.cpp:74-83 | different data give different results under one key |
| ChatTheorems.AuthenticatedNames | src/server/session/session.cpp:528-543 | in every run authenticated sessions have non-empty, known, pairwise distinct names of at most 16 characters |
| ChatTheorems.FinalStatus | src/server/session/session.cpp:205-222 | a session that is authenticated or rejected stays so until it is dropped, and only a closed one is dropped |
| ChatTheorems.ChannelMembership | src/server/session/session.cpp:326-413 | in every run a session is in a channel's map exactly when its back pointer names that channel, so in one at most |
| ChatTheorems.OccupiedStaysRegistered | src/server/channel/channel-manager.cpp:21-43 | in every run that creates no channel over an occupied one, every occupied channel is registered under its own name |
| ChatTheorems.CreateExact | src/server/channel/channel-manager.cpp:21-43 | a creation keeps occupied channels registered if and only if the name is not empty or nobody else is in its channel |
| ChatTheorems.UnsafeCreateOrphans | src/server/channel/channel-manager.cpp:37-40 | the first creation that breaks this condition leaves an occupied channel unregistered |
| ChatTheorems.SweepExact | src/server/channel/channel-manager.cpp:101-107 | a sweep removes exactly the empty channels not called Default and keeps every invariant |
| ChatTheorems.RostersExactIff | src/server/channel/channel.cpp:43-88 | replaying the packets queued to each open session gives exactly the names in its channel, in every run, if and only if no two usable names differ only in case |
| ChatTheorems.StepKeeps | src/server/session/session.cpp:326-413 | each step keeps names, membership, registration and exact rosters |
| ChatOutcomes.StepOutcome | src/server/session/session.cpp:326-550 | every step of the server is a step of the plain form: login, time-out, join, create, leave, close, drop and sweep do to people, rooms and names exactly what they promise |
| ChatOutcomes.RunOutcome | src/server/session/session.cpp:326-550 | so every run looks like a run of the plain form, and the member lists are the seats |
| ChatOutcomes.JoinOutcome | src/server/channel/channel.cpp:30-33 | a join seats the session in the registered channel if and only if the name is not empty, is registered and the password is the channel's; otherwise the session is told so and nothing else changes |
| ChatOutcomes.PasswordHolds | src/server/channel/channel-manager.cpp:21-43 | however the run goes on, a created channel is entered with the password it was created with and with no other |
| ChatInvariants.ExitRosters | src/server/channel/channel.cpp:64-88 | after a leave, every open session's roster is again exactly its channel |
| ChatInvariants.EnterRosters | src/server/channel/channel.cpp:43-56 | after a join, every open session's roster is again exactly its channel |
| Roster.AddExact | src/client/gui.cpp:369-389 | adding keeps names distinct and adds exactly the name, given that no different name matches it |
| Roster.RemoveExact | src/client/gui.cpp:391-422 | removing drops exactly the name, given that no different name matches it |
| Roster.ListingExact | src/client/session/session.cpp:455-471 | a listing is shown name for name if and only if no two of its names differ only in case |
| Roster.MatchesIff | src/client/gui.cpp:355-366 | names match when they have equal length and differ at most in the case of letters from A to Z |
| Roster.InOrder | src/client/gui.cpp:369-422 | a new name goes to the end, a leaver's place closes up |
| Roster.ListingInOrder | src/client/session/session.cpp:455-471 | a listing of case-distinct names is shown in its own order |
| ChatObjects.ChatHost.SendToAllButOne | src/server/channel/channel.cpp:111-119 | every open member but one gets the packet, nobody else |
| ChatObjects.ChatHost.SendUsersList | src/server/channel/channel.cpp:133-142 | the session gets the names of the members in order |
| ChatObjects.ChatHost.EnterChannel | src/server/channel/channel.cpp:43-56 | membership, join notices, user list and back pointer |
| ChatObjects.ChatHost.ExitChannel | src/server/channel/channel.cpp:64-88 | removal, leave notices, empty list and back pointer |
| ChatObjects.ChatHost.HandleJoinChannel | src/server/session/session.cpp:326-369 | refused for an unknown channel or a wrong password, otherwise leave and enter |
| ChatObjects.ChatHost.HandleCreateChannel | src/server/session/session.cpp:371-396 | refused for Default and registered names, otherwise create, leave and enter |
| ChatObjects.ChatHost.HandleLeaveChannel | src/server/session/session.cpp:398-413 | leaves the channel and says so |
| ChatObjects.ChatHost.JoinDefaultChannel | src/server/channel/channel-manager.cpp:112-127 | the default channel is made when it is missing |
| ChatObjects.ChatHost.FindSession | src/server/session/session-manager.cpp:81-87 | finds a name exactly when some session has it |
| ChatObjects.ChatHost.FinishLogin | src/server/session/session.cpp:517-546 | authenticates and joins Default if the test passed and the name is free, rejects and closes otherwise |
| ChatObjects.ChatHost.UpdateChannels | src/server/channel/channel-manager.cpp:101-107 | the sweep's loop over a snapshot of the registry |
| ChatObjects.ChatHost.RemoveSession | src/server/session/session-manager.cpp:101-114 | a swept session leaves its channel and the map |
| AdmissionTheorems.EveryPositionExact | src/server/session/session-manager.cpp:120-190 | in every reachable state the last position sent to an open waiting session is its 1-based place |
| AdmissionTheorems.RemoveTellsPositions | src/server/session/session-manager.cpp:140-190 | erase, pop, both or neither: positions are exact again, whatever the limits |
| AdmissionTheorems.LimitsAndWork | src/server/session/session-manager.cpp:35-53 | while the two reads of AddSession are one step, both limits hold in every reachable state; somebody waits only while every active slot is taken |
| AdmissionTheorems.AdmissionOrder | src/server/session/session-manager.cpp:193-234 | those given a slot followed by those waiting are the admitted in order, without those who left while waiting |
| AdmissionTheorems.StepKeeps | src/server/session/session-manager.cpp:35-234 | every event keeps positions, flags, limits, no idle slot and order |
| AdmissionRace.OverIff | src/server/session/session-manager.cpp:35-53 | with the two reads apart, the runs that ever pass the queue limit are exactly those in which a connection enters a full queue after the waiting queue has grown since its count was read |
| AdmissionRace.RaceKeepsRest | src/server/session/session-manager.cpp:35-234 | with the two reads apart, positions, the active limit, no idle slot and order still hold in every run |
| AdmissionRace.SeenWasRead | src/server/session/session-manager.cpp:38 | the count in hand is the waiting count of an earlier moment of the run |
| AdmissionRace.QueueLimitOverrun | src/server/session/session-manager.cpp:38 | a run that passes the queue limit |
| AdmissionObjects.SessionManager.GetQueuePos | src/server/session/session-manager.cpp:120-129 | the 1-based place, or 0 for a session that does not wait |
| AdmissionObjects.SessionManager.AddSession | src/server/session/session-manager.cpp:35-53 | accepted exactly below the queue limit, and put behind the new sessions |
| AdmissionObjects.SessionManager.AddQueuedSession | src/server/session/session-manager.cpp:131-138 | flagged, put at the end and told its place |
| AdmissionObjects.SessionManager.AddSessions | src/server/session/session-manager.cpp:193-234 | new sessions enter one by one, waiting or starting their login |
| AdmissionObjects.SessionManager.UpdatePositions | src/server/session/session-manager.cpp:186-188 | the loop that tells every session from an index on |
| AdmissionObjects.SessionManager.RemoveQueuedSession | src/server/session/session-manager.cpp:140-190 | the whole new state after the search, the optional activation and the update loop |
| AdmissionObjects.SessionManager.RemoveClosed | src/server/session/session-manager.cpp:101-114 | the removal of a closed session from queue and map |
| Dispatch.EveryInterleaving | src/server/threading/scheduling-engine.cpp:66-82 | for any number of threads: queue length is free tokens plus workers past Wait plus producers that have not signalled; no lost wake-up; requests come out once each in order |
| Dispatch.NeverFindsEmpty | src/server/networking/network-manager.cpp:149-155 | a worker past Wait finds a request |
| Dispatch.Settles | src/shared/threading/semaphore.h:21-37 | left alone, every row of internal steps is bounded, and when none is left a worker sleeps only if every request has been taken |
| Dispatch.SettledIsServed | src/shared/threading/semaphore.h:21-37 | in every settled state a sleeping worker means an empty queue |
| Dispatch.InternalLowers | src/shared/threading/semaphore.h:21-37 | every step inside Signal, Wait and next brings the threads nearer to the end |
| Dispatch.InternalEnabled | src/shared/threading/semaphore.h:21-37 | only an empty semaphore blocks a thread |
| DispatchObjects.Engine.SignalNotify | src/shared/threading/semaphore.h:31-37 | some sleeper is woken if there is one |
| DispatchObjects.Engine.WaitTest | src/shared/threading/semaphore.h:21-30 | through with one token less, or asleep |
| DispatchObjects.Engine.GetNext | src/server/threading/scheduling-engine.cpp:76-82 | takes the oldest request, which the invariant guarantees |
| LockQueues.LockQueue.Next | src/shared/utility/queues/lock_queue.h:42-53 | takes the front, or nothing from an empty queue |
| LockQueues.LockQueue.NextIf | src/shared/utility/queues/lock_queue.h:55-69 | takes the front exactly when the checker accepts it |
| Barrier.CountedAndNeverStuck | src/server/channel/channel-updater.cpp:85-93 | pending is scheduled minus finished in every run, and a waiter whose updates are all finished can leave |
| Barrier.BarrierIff | src/server/channel/channel-updater.cpp:59-65 | Wait returns only at pending zero, in every continuation, if and only if it starts without a spare token or without pending updates |
| Barrier.RoundIff | src/server/channel/channel-updater.cpp:43-65 | from a clean start a round is a barrier and leaves no spare token if and only if the counter does not drain before the last update is scheduled |
| Barrier.SweepsIff | src/server/channel/channel-manager.cpp:88-99 | any number of sweeps, also over no channel, are all right if and only if no counter drains early in any of them |
| Barrier.HitsIff | src/server/channel/channel-updater.cpp:85-93 | a round gives as many tokens as the counter falls to zero, one at its end at most exactly when it never drains early |
| Barrier.TooEarly | src/server/channel/channel-updater.cpp:43-65 | a run in which Wait returns while an update is pending |
| BarrierObjects.ChannelUpdater.UpdateFinished | src/server/channel/channel-updater.cpp:85-93 | one less pending, without wrapping under the invariant, and a token at zero |
| Drain.EveryInterleaving | src/server/session/session.cpp:91-177 | however arrivals and the two updates interleave, consumed packets followed by the queue are the arrivals in order |
| Drain.EveryAlternation | src/server/session/session.cpp:91-177 | the same for every alternation of arrivals and whole updates |
| Drain.WhoConsumes | src/server/networking/packet/packetfilter.cpp:4-28 | the map filter consumes no thread-unsafe packet, a thread-safe one goes by channel membership; a handler ran exactly for login, refresh, queue-position and users-list types while the session was not waiting, and for every other type but the null action while it was authenticated |
| Drain.EffectsInOrder | src/server/session/session.cpp:105-160 | what an update does to the session is, in order, the effect of those of its packets whose handlers may run |
| Drain.SomeFilterAccepts | src/server/networking/packet/packetfilter.cpp:4-28 | some filter accepts every head, both exactly for in-place packets |
| Drain.AlternationEmpties | src/server/session/session.cpp:105-177 | for any opcode table, alternating updates empty the queue of a session that stays open |
| Drain.SingleTakesAll | src/server/networking/packet/opcode.cpp:5-29 | with this table one single-session update empties the queue unless the session closes |
| Drain.MapStopsAtUnsafe | src/server/networking/packet/opcode.cpp:5-29 | a map update leaves exactly what starts at the first join, leave or login packet |
| Drain.WaitingSessionInert | src/server/session/session.cpp:122-150 | a waiting session that is not authenticated has its packets consumed without any handler and without any change |
| DrainObjects.Session.Update | src/server/session/session.cpp:91-177 | the loop, with packets arriving between its turns, is a run of arrivals and turns that ends where its filter takes nothing more; false exactly when the session is closed |
| DrainObjects.Session.Dispatch | src/server/session/session.cpp:117-160 | the status switch runs the handler exactly for the types that this session may send now |
| Opcodes.OneTypeEach | src/shared/networking/opcode.h:6-32 | the numbers on the wire |
| Octets.LoadStore | src/shared/utility/byteconverter.h:9-31 | an integer stored under either byte order is loaded back |
| Octets.StoreAt | src/shared/utility/byteconverter.h:9-31 | which octet of an integer lies where under either byte order |
| Octets.TextRoundTrip | src/shared/utility/bytebuffer.h:240-251 | a zero-free string and its terminator are read back and the rest stays |
| BufferFormat.ReadBack | src/shared/utility/bytebuffer.h:289-345 | any value, whatever lies behind it, is read back and nothing behind it is touched |
| BufferFormat.TextIff | src/shared/utility/bytebuffer.h:240-251 | a string comes back if and only if it holds no zero octet |
| BufferFormat.GuidBack | src/shared/utility/bytebuffer.h:323-345 | the packed octets under a mark give the value back |
| BufferLayout.GuidLayout | src/shared/utility/bytebuffer.h:430-447 | bit i of the mark says whether octet i is there, and the octets that are there follow in order |
| BufferLayout.IntegerLayout | src/shared/utility/bytebuffer.h:83-155 | integers lie in two's complement, octet by octet |
| BufferFormat.MapRebuilt | src/shared/utility/bytebuffer.h:604-629 | a map written pair by pair, read back and inserted in reading order is the same map |
| Buffers.Duality | src/shared/utility/bytebuffer.h:83-171 | whatever is appended without an exception is read back in order, and the read position ends at the write position |
| Buffers.WriteExact | src/shared/utility/bytebuffer.h:399-413 | a completed write extends the storage by the value's octets, and the size assertion keeps every count below 32 bits |
| Buffers.AppendIff | src/shared/utility/bytebuffer.h:399-413 | an append throws exactly on an empty source, asserts exactly on a full buffer, and otherwise replaces exactly its window |
| BufferObjects.PackGuid | src/shared/utility/bytebuffer.h:430-447 | packing fills at most nine octets, with the mark and the octets that are not zero |
| BufferObjects.ByteBuffer.AppendOctets | src/shared/utility/bytebuffer.h:399-413 | exceptions, growth and copy at the write position |
| BufferObjects.ByteBuffer.AppendText | src/shared/utility/bytebuffer.h:157-163 | the octets, if any, and the terminator |
| BufferObjects.ByteBuffer.AppendValue | src/shared/utility/bytebuffer.h:83-171 | every append operator, containers by their loop |
| BufferObjects.ByteBuffer.ReadText | src/shared/utility/bytebuffer.h:240-251 | up to a zero octet or the end |
| BufferObjects.ByteBuffer.ReadPackGuid | src/shared/utility/bytebuffer.h:323-345 | the mark's loop gives the value, or the position exception where octets are missing |
| BufferObjects.ByteBuffer.ReadValue | src/shared/utility/bytebuffer.h:289-345 | every read operator, with the position it leaves also on an exception |
| BufferObjects.ByteBuffer.ReadElements | src/shared/utility/bytebuffer.h:563-576 | the counted loop of a container |
| Base64.EncodeBase64 | src/shared/crypto/base64.cpp:17-52 | the wrapping accumulator writes exactly the block-wise encoding of section 4 of RFC 4648, in bounds; too long and empty inputs fail |
| Base64.EmitDigits | src/shared/crypto/base64.cpp:34-43 | the inner loop writes the digits that one more octet completes |
| Base64.EncodingIsEmitted | src/shared/crypto/base64.cpp:34-51 | what the loops write, the last digit and the padding together are the block-wise encoding |
| Base64.ShiftInBits | src/shared/crypto/base64.cpp:36 | however the accumulator wrapped, its low bits are the last two octets |
| Base64.DecodeBase64 | src/shared/crypto/base64.cpp:54-84 | skips white space and padding, refuses exactly the texts with an illegal character, and otherwise decodes the letters |
| Base64.RoundTrip | src/shared/crypto/base64.cpp:17-84 | the encoding with white space put in anywhere decodes to the data |
| Base64.PlainRoundTrip | src/shared/crypto/base64.cpp:17-84 | decoding the encoding gives the data back |
| Base64.DecodingSnoc | src/shared/crypto/base64.cpp:75-82 | one more letter adds exactly the octet it completes |
| Base64Numbers.EncodingIsNumber | src/shared/crypto/base64.cpp:17-52 | the letters are the octets' number in base 64 with zero bits to fill the last letter, and the padding comes last |
| Base64Numbers.DecodingIsNumber | src/shared/crypto/base64.cpp:54-84 | any legal letters are read as one number in base 64, whose bits beyond whole octets are dropped |
| Base64Numbers.LetterIs | src/shared/crypto/base64.cpp:3 | the alphabet |
| Base64Numbers.SkippedIff | src/shared/crypto/base64.cpp:66 | blanks, tabs, line ends and padding are passed over |
| Base64Numbers.LegalIff | src/shared/crypto/base64.cpp:5-15 | what is neither passed over nor in the alphabet is refused |
| Frames.FrameBounds | src/shared/session/sessionbase.cpp:141-151 | the sizes at which a frame passes the 65000 check, fits the buffer and keeps its 16-bit length |
| Frames.FrameDelivered | src/shared/session/sessionbase.cpp:218-223 | up to 64963 octets opcode and payload arrive unchanged and the rest of the stream stays; 64964 to 65491 octets are refused |
| Frames.ClearFrameDelivered | src/shared/session/sessionbase.cpp:203-240 | in clear up to 64992 octets arrive unchanged, more are refused |
| Frames.DecapsulateBack | src/shared/networking/packet.cpp:217-287 | without truncation the content comes back exactly when it is fresh and its counter is not behind, whatever lies behind the payload |
| Frames.AgeLimit | src/shared/networking/packet.cpp:264-270 | a packet is too old exactly when more than 172800 seconds have passed since its stamp, in wrapping 32-bit arithmetic, and is delivered until then if its counter is not behind |
| Frames.CutPacket | src/shared/networking/packet.cpp:235-263 | cut short anywhere, a packet is not delivered: the position exception, or nothing when no octet is left |
| Frames.CutFrame | src/shared/session/sessionbase.cpp:203-240 | as long as an octet of a frame is missing nothing is taken off the stream |
| WireLayout.MessageLayout | src/shared/networking/packet.cpp:217-233 | opcode, size, stamp, counter and payload, octet by octet under either byte order |
| WireLayout.FrameLayout | src/shared/session/sessionbase.cpp:141-151 | the 16-bit length with its lowest octet first, the exact size, and the sealed message |
| Frames.KeyLinks | src/shared/networking/packet.cpp:217-287 | under one key a packet is delivered or taken for a replay by its counter alone |
| Frames.WhichArrive | src/shared/networking/packet.cpp:217-287 | of packets sent back to back exactly those arrive, in order, whose number is below 2^32, and after that the one in 2^32 with the highest counter |
| Frames.AllArriveIff | src/shared/networking/packet.cpp:223-227 | packets under one key all arrive if and only if they are no more than 2^32 |
| Hybrid.SplitBack | src/shared/networking/packet.cpp:132-175 | the receiver's split finds the message and the signature that the sender joined |
| Hybrid.NameFound | src/shared/networking/packet.cpp:177-187 | the string at offset 8 is the name that the client wrote first |
| Hybrid.LoginOpensIff | src/shared/networking/packet.cpp:132-192 | the server opens the login packet if and only if it was signed with the key filed under the name in it |
| Hybrid.ClientOpensIff | src/shared/networking/packet.cpp:132-192 | the client opens exactly what the server signed |
| Hybrid.LoginDelivered | src/client/session/session.cpp:359-374 | from the client's handler to the server's the same opcode and payload come out |
| Hybrid.EnvelopeBound | src/shared/networking/packet.cpp:26-66 | the length of an envelope, and the longest payload that the receiver lets in |
| WireLayout.EnvelopeLayout | src/shared/networking/packet.cpp:26-86 | the RSA block first, then message and signature under the fresh key |
| WireLayout.EnvelopeRefused | src/shared/networking/packet.cpp:132-192 | an envelope for somebody else fails; one cut within its RSA block, or on the server around less than a header, throws |
| OctetRefinement.OctetsRefine | src/shared/session/sessionbase.cpp:203-312 | in every mode the octets of a packet, whatever follows them, give the verdict, content and counter that the symbolic packet gives |
| OctetRefinement.SealedIsValid | src/shared/session/sessionbase.cpp:95-151 | what a session seals is such a packet, and its octets are the frame with the session's counter |
| PacketObjects.Packet.Incapsulate | src/shared/networking/packet.cpp:217-233 | header and payload in the buffer, and the counter one higher in 32 bits |
| PacketObjects.Packet.Decapsulate | src/shared/networking/packet.cpp:235-287 | size, age and counter in the order of the source, the counter replaced only on acceptance |
| PacketObjects.Packet.EncryptHybrid | src/shared/networking/packet.cpp:26-86 | the buffer becomes the envelope |
| PacketObjects.Packet.DecryptHybrid | src/shared/networking/packet.cpp:132-205 | the buffer becomes the message with its signature still behind it, or stays when a step fails or throws |
| CountedPtr.EveryRun | src/shared/utility/counted_ptr.h:106-185 | after any run, a defined assignment being one, each counter is the number of handles on it, nothing is freed twice, and an object is freed exactly when no handle holds it |
| CountedPtr.NothingLeaks | src/shared/utility/counted_ptr.h:106-185 | when the last handle is gone everything made has been freed exactly once |
| CountedPtr.AssignSame | src/shared/utility/counted_ptr.h:112-119 | assigning a handle to itself or to another on the same object is defined, and changes nothing |
| CountedPtr.AssignTargets | src/shared/utility/counted_ptr.h:112-119 | after an assignment both handles hold what the right one held, and the handles that are left are otherwise as before |
| CountedPtr.MadeTargets | src/shared/utility/counted_ptr.h:106-111 | a new handle holds its object, a copy what the original holds, and nobody else's target changes |
| CountedPtr.AssignSafeIff | src/shared/utility/counted_ptr.h:112-119 | in whatever order destructors run, both handles outlive the release if and only if, before the call, their homes are held by handles other than the one released |
| CountedPtr.AssignDefinedIff | src/shared/utility/counted_ptr.h:112-119 | an assignment has a defined outcome exactly then |
| CountedPtr.AssignIsARun | src/shared/utility/counted_ptr.h:112-119 | a defined assignment is a run of release, destructors and acquire |
| CountedPtr.MemberDestroyed | src/shared/utility/counted_ptr.h:112-119 | assigning to the only holder of an object from a member of that object is never defined |
| CountedPtr.NextOfOnlyHolder | src/shared/utility/counted_ptr.h:112-119 | a reachable store with such an assignment |
| CountedPtr.SelfHandleKeepsAlive | src/server/session/session.cpp:22-25 | a session's handle on itself keeps it alive through every run that does not release it |
| CountedPtr.DeleteSmartPointerIff | src/server/session/session.cpp:27-30 | the release is sound if and only if another handle holds the session |
| CountedPtrObjects.Heap.ReleaseHandle | src/shared/utility/counted_ptr.h:176-185 | the unsigned count falls, at zero the object goes with every destructor that sets off, the handle is null |
| CountedPtrObjects.Heap.AssignHandle | src/shared/utility/counted_ptr.h:112-119 | tells whether the assignment is defined, and if so makes it |
| CountedPtrObjects.Heap.DestroyHandle | src/shared/utility/counted_ptr.h:108-109 | release with its destructors, and the handle is gone |

## Left out

Assumptions on the environment, each of which a lemma above shows to be needed or bounds:

- the client is silent between its half and the empty refresh packet, and the server
  starts a refresh only when none is outstanding
- in the session-key runs the name in the request is known and not in use; HandshakeOutcome has the other cases
- chat is sent by authenticated ends only, and the send queue is empty when a login starts
- fewer than 2^32 packets are sent under one key, and fewer than 2^32 handles share a counter
- session identities are never used again; the limits do not change after construction
- reads and writes on a socket are complete, and sockets, epoll and reconnection are not modelled

What the model does not have:

- the inside of the ciphers, hashes, signatures and the random generator; the passwords of users and key files; a channel's password is compared as it arrives
- what a receiver does with octets that do not open: the program may go on with garbage, the model stops there
- payloads above 65491 octets, whose 16-bit length is cut: only the sizes at which this happens are stated
- the age check of two days inside the session-key runs; it is in the frame only
- the timers that decide when a refresh or a login timeout is due; both may come at any moment
- the order of a hash map's iteration: members of a channel are kept in the order in which they entered
- two network threads that pop packets of one session and then send them in the other order; roster order is the order in the send queue
- iterators used after an erase in the sweeps over sessions and channels; each sweep works on a snapshot
- the counters that the server's session constructor leaves unset until the first reset; they start at zero
- SessionObjects.ServerSession.ReceiveFromSocket: a length above 65000 and a position exception, which close the session, are in Frames only
- handles that are destroyed by a release of their own object: the model calls such an assignment undefined and does not go on
- a frame whose inner size is larger than what is there, where the program copies past the end before it throws: the model only throws
- an envelope shorter than its RSA block or its signature, where the program reads or sizes past the end before it throws: the model only throws
- packets whose opcode is above 21, which no handler receives
- a peek at a queue that another update empties between the test and the peek
- floating-point and packed-time operators of the byte buffer, and setting its positions by hand
- XML bodies, which are pairs of a name and a text; the user table, which is a set of names; configuration and logging
- the GTK client beyond the three operations on the list of users, and its command table
- src/server/command/chat_handler.cpp, which is not compiled
- Barrier.CountedAndNeverStuck: fewer than 2^64 updates are scheduled in a run
