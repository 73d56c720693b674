# xk6-bgp: a verified model of its BGP sessions

A Dafny 4.11 model of the parts of xk6-bgp whose correctness spans many calls: the receiver's
observed set and the waiters blocked on it, splitting and sending UPDATEs on a shared connection,
what two peers agree on in the OPEN exchange, the life of one session with its two loops, the
N-party barrier, and the refresh replay of fakebgpd. `dafny verify dfyconfig.toml` checks all of it.

## How it is organised

| file | models |
|---|---|
| `History.dfy` | the reference: what was delivered, and what a waiter asks of it |
| `ObservedState.dfy`, `ObservedSet.dfy` | one locked section of the receiver, as a transition and as the object that performs it |
| `ObservedRuns.dfy`, `RefreshRuns.dfy` | what any sequence of locked sections amounts to |
| `PathKey.dfy`, `Nlri.dfy`, `WaitList.dfy` | observed-set keys, and how the texts a script waits for become such keys |
| `Packet.dfy`, `Chunking.dfy` | building an UPDATE, its length, splitting routes into messages |
| `Octets.dfy` | the octets of an UPDATE, which the lengths are the lengths of |
| `OpenMessage.dfy`, `Fsm.dfy`, `Negotiation.dfy` | configuration, capabilities, the handshake, and what both ends hold afterwards |
| `SessionRuns.dfy` | one caller and two loops, under every interleaving |
| `Send.dfy`, `Framing.dfy` | validated requests, writes shared with other writers, reading messages back |
| `Dispatch.dfy` | what the wire keeps of a message, and the receiver operations a message or a log amounts to |
| `Delivery.dfy` | from a request at one end to the observed set at the other, interleaved with anything else |
| `Barrier.dfy`, `Hub.dfy` | the barrier and the reflector under every interleaving |

Receiving, sending, opening a session, reading messages, the barrier and the hub's cache are classes
whose methods update their fields as the source does. The methods of the observed set, of the
dispatcher and of the barrier are proved to perform transitions of a value, and `Fsm.Open` to store the
states of one run of `SessionRuns.dfy` (`SessionRuns.OpenIsARun`); the theorems are about those values
over whole runs. `Close`, `fail` and the two loops of a session appear as steps of `SessionRuns.dfy`
only. Concurrency is a sequence of atomic steps taken in any order; a step whose thread is blocked
changes nothing. Timestamps are naturals with 0 for the zero time; durations are nanoseconds.

## What the proofs found

- `ChunkRoutes` documents that every chunk serializes within the message limit. That holds for
  traditional IPv4 unicast and fails for MP attributes in one family of inputs: the overhead is
  measured on a one-route probe, and when the attribute header grows from three to four octets
  between the probe and a chunk that fills its budget exactly, the message is one octet too long.
  `Chunking.ChunkFits` is the exact condition, `Chunking.ChunkRoutesCanOverflow` an example: 240
  IPv6 withdrawals in one message of 4097 octets. `SerializeMessage` then refuses the message, so
  the request fails part-way instead of harming the session.
- The wait for an EoRR accepts an EoRR read at the very timestamp of the refresh write, so a refresh
  can be answered by the end of the previous one. `Hub.EqualTimestampsDefeatTheAnchor` is a run from an
  idle system in which that loses an UPDATE. `Hub.CompleteExactlyWhenSafe` is the exact condition under
  which a refresh is complete: no EoRR that already satisfies the wait (unless nothing was recorded),
  and ahead of one that is already on its way, everything recorded. With nothing of the family on its
  way, that is: the last EoRR was read strictly before the request (`Hub.RefreshIsComplete`).
- Cancelling the context given to `Open` after the session is up ends both loops in silence: the
  Peer keeps saying Established and blocked waiters are not woken. `SessionRuns.CancelledContextIsSilent`
  shows it for every session between calls, `SessionRuns.SilentLife` for the shortest one;
  `SessionRuns.LoopsEndWithTheSession` proves that this is the only way the loops can end before the
  session does.
- docs/route_refresh.md:64-68 says a prefix observed before the cutoff matches again once it is
  re-advertised after a withdraw. The code keeps the first-seen time for ever
  (internal/peer/recv.go:178-182); the model follows the code, and `ObservedRuns.CutoffIsFinal`
  proves such a key can never satisfy that waiter.

## Model

| member | source | states |
|---|---|---|
| ObservedRuns.PendingIsHistoryQuery | internal/peer/recv.go:165-286 | in every reachable state a linked waiter's pending set is exactly the wanted keys that the whole delivered history does not satisfy (reached, last event a reach, first reach not before the cutoff) |
| ObservedRuns.WakeUpIsExact | internal/peer/recv.go:201-303 | a linked waiter's latch is closed if and only if the session failed or all its keys were satisfied together at some moment since it registered, even inside one UPDATE and even if re-armed later |
| ObservedRuns.WakeUpSinceRegistration | internal/peer/recv.go:245-322 | a call that has to wait becomes one waiter that keeps its list, its cutoff and its moment of registration until deregistered, wherever it moves in the list; it is released exactly when the session failed or all it listed was satisfied together at some moment since that call |
| ObservedRuns.WaitResultIsExact | internal/peer/recv.go:341-383 | Matched counts exactly the wanted keys the history satisfies at the final read, and the call succeeds if and only if that is all of them; else it reports the recorded failure, or a timeout exactly if there is none |
| ObservedRuns.UnlinkedIsSnapshot | internal/peer/recv.go:245-286 | a waiter satisfied or failed at registration is released at once, leaves the set unchanged, and reports the moment of registration whatever follows |
| ObservedRuns.FailureIsFirstFail | internal/peer/recv.go:291-303 | the session is down if and only if a failure was reported, and its cause is the first one reported |
| ObservedRuns.FailureReleasesEverybody | internal/peer/recv.go:291-303 | after any reported failure every linked waiter of both kinds is released, whatever came before or after |
| ObservedRuns.FailureIsSticky | internal/peer/recv.go:291-303 | the recorded failure never changes, and appears only through a failure step |
| ObservedRuns.UpdateSettlesKeys | internal/peer/recv.go:165-197 | one UPDATE after any run: what it withdraws is withdrawn even if it also advertises it, what it only advertises is not, new keys get its read time, all others stay |
| ObservedRuns.CutoffIsFinal | internal/peer/recv.go:206-215 | a key first seen before a waiter's cutoff is pending in every continuation |
| ObservedRuns.ReportedWindowIsExact | internal/peer/recv.go:216-224 | first is the least first-seen time and last the greatest read time among the observations that count for the waiter, over any run |
| ObservedRuns.TimestampEnvelope | internal/peer/recv.go:165-286 | with read times that never go back, cutoff <= first <= first-seen <= last <= last UPDATE for every wanted key not pending |
| ObservedRuns.KeyMapsAreHistory | internal/peer/recv.go:173-195 | a key has a first-seen entry if and only if it was ever reached, and is withdrawn if and only if its last event is an unreach |
| ObservedRuns.StatsAreCounts | internal/peer/recv.go:398-416 | the UPDATE, advertised and withdrawn counters count what was delivered |
| ObservedRuns.UpdateClocks | internal/peer/recv.go:167-171 | the first and last UPDATE timestamps are the read times of the first and the last UPDATE operation of the run |
| History.EarliestIsFirst | internal/peer/recv.go:178-182 | the reference notion of first seen is the first reach of the key in the history |
| History.EarliestSticky | internal/peer/recv.go:178-182 | no continuation of the history changes a first-seen time |
| History.LatestIsLast | internal/peer/recv.go:183-194 | the reference notion of the latest event is the event about the key that no later one follows |
| RefreshRuns.RefreshAccounting | internal/peer/recv.go:101-128 | the three refresh counters partition the messages read, the newest EoRR of each family is kept, and none is recorded without RFC 7313 |
| RefreshRuns.RefreshWaiterAgrees | internal/peer/recv.go:114-146 | a linked refresh waiter holds the newest EoRR of its family exactly when that is not before its cutoff, and is released exactly then or on failure |
| RefreshRuns.UnlinkedRefreshWaiter | internal/peer/recv.go:130-147 | a refresh waiter already answered or failed is released at registration with the newest EoRR or nothing, and only such a one is not linked |
| RefreshRuns.NewestEoRR | internal/peer/recv.go:101-128 | read off the operations: an EoRR of a family is held if and only if RFC 7313 was negotiated and one was read, and it is the last one |
| RefreshRuns.RefreshCounters | internal/peer/recv.go:101-128 | the counters are the numbers of BoRR, EoRR and other messages read |
| RefreshRuns.RefreshWaitSinceCall | internal/peer/recv.go:130-158 | a wait neither answered nor failed at the call is one linked waiter with that family and cutoff until deregistered; what it holds and when it is released |
| ObservedSet.Waiter.NoteReach | internal/peer/recv.go:205-228 | one waiter's reaction to a reach is the specified transition, cutoff, re-observation and latch included |
| ObservedSet.Waiter.NoteWithdraw | internal/peer/recv.go:237-242 | one waiter's reaction to a withdraw: re-armed if it wants the key |
| ObservedSet.Waiter.MarkDone | internal/peer/recv.go:85-87 | the channel is closed at most once |
| ObservedSet.RefreshWaiter.NoteEoRR | internal/peer/recv.go:114-123 | one refresh waiter takes the timestamp and is released exactly when family and cutoff admit it |
| ObservedSet.ObservedSet.NotifyReach | internal/peer/recv.go:201-229 | every linked waiter, and only their state, makes the reach transition |
| ObservedSet.ObservedSet.NotifyWithdraw | internal/peer/recv.go:233-243 | every linked waiter makes the withdraw transition |
| ObservedSet.ObservedSet.ApplyUpdate | internal/peer/recv.go:165-197 | the whole new state after one UPDATE: reaches first, then unreaches, keyed with or without path ids |
| ObservedSet.ObservedSet.RegisterWaiter | internal/peer/recv.go:245-286 | the new waiter's state from the current maps, and whether it is linked |
| ObservedSet.ObservedSet.DeregisterWaiter | internal/peer/recv.go:313-322 | exactly the given waiter is removed, if it is linked |
| ObservedSet.ObservedSet.Fail | internal/peer/recv.go:291-303 | the first error is kept and every linked waiter of both kinds released |
| ObservedSet.ObservedSet.FinalRead | internal/peer/recv.go:360-382 | Missing lists the pending keys without repetition, Matched the rest, and the error is the session's, a timeout or none |
| ObservedSet.Listed | internal/peer/recv.go:361-364 | a map's keys are listed once each |
| ObservedSet.ObservedSet.ApplyRouteRefresh | internal/peer/recv.go:101-128 | the whole new state after one ROUTE-REFRESH, with and without RFC 7313 |
| ObservedSet.ObservedSet.RegisterRefreshWaiter | internal/peer/recv.go:130-147 | answered at once, failed at once, or linked |
| ObservedSet.ObservedSet.DeregisterRefreshWaiter | internal/peer/recv.go:149-158 | exactly the given refresh waiter is removed |
| PathKey.PathIdRoundTrip | bgp.go:555-570 | the key recorded for a prefix and any 32-bit path id is parsed back into exactly that prefix and id |
| PathKey.SplitSuffix | bgp.go:555-570 | a 32-bit decimal suffix is reprinted canonically, any other suffix is an error, and the prefix is untouched |
| PathKey.SplitIsSound | bgp.go:555-570 | whatever is accepted is a bare string without a path id, or a prefix, a colon and the decimal of the returned id |
| PathKey.SplitBare | bgp.go:555-570 | a bare prefix, or no prefix at all, is accepted as it is |
| PathKey.KeyParts | bgp.go:555-570 | prefix and suffix are read off a key in one way only, with or without a path id |
| PathKey.ValueIsPositional | bgp.go:555-570 | decimals are positional, most significant digit first |
| PathKey.PathStringInjective | internal/peer/recv.go:160-177 | distinct (NLRI, path id) pairs never share an observed-set key |
| Nlri.KeyIdentifiesPath | internal/peer/recv.go:160-177 | two NLRI share a key if and only if the prefix is the same and, with ADD-PATH receive, the path id too |
| Nlri.KeyIsWhatScriptsAskFor | internal/peer/recv.go:174-177 | the recorded key, without and with ADD-PATH, is parsed back into exactly the prefix, and prefix and path id, that a script writes |
| WaitList.ParsePrefixList | bgp.go:497-553 | the keys of all entries in order, or the error of the least entry that has one |
| WaitList.TextBecomesKey | bgp.go:521-529 | a text becomes the key the receiver records for an NLRI if and only if its prefix is that NLRI's, it shows a path id exactly if keys do, and it is that NLRI's |
| Packet.IpWireLen | internal/packet/iproute.go:62-67 | an IP prefix takes one octet plus the fewest octets that hold its bits |
| Packet.BuildUpdateMessage | internal/packet/path.go:199-286 | which error or which UPDATE results, family mismatch at its least index |
| Packet.ChunkRoutes | internal/packet/path.go:392-432 | error exactly for unusable attributes, no room, or the least route over the budget; otherwise a greedy packing of all routes in order |
| Packet.Pack | internal/packet/path.go:417-431 | the loop stops at the least route that exceeds the budget, or leaves a closed greedy packing of a prefix and the rest as one more chunk within the budget |
| Octets.EncodedLength | internal/packet/path.go:370-385 | the length reckoned with is the number of octets of the message, attribute headers included, for every message and every ADD-PATH modes |
| Octets.BuiltIsSized | internal/packet/path.go:199-368 | the attributes of every built UPDATE have the lengths their values are written with |
| Octets.WrittenAsReckoned | internal/packet/path.go:370-385 | a built message passes exactly if its octets are at most 4096, or 65535, and is then one well-framed message that the reader cuts off a stream |
| Octets.OverheadIsOctets | internal/packet/path.go:434-450 | the overhead is the octets of the probe's message body apart from its route |
| Octets.ChunkOctets | internal/packet/path.go:387-432 | a chunk packed within the budget is written within the limit, or in exactly one octet more if it fills the budget and the MP header grew |
| Octets.AttributesAreAsConfigured | internal/packet/path.go:199-368 | an advertisement carries exactly the attributes its configuration calls for, and all routes in order in exactly one place |
| Octets.WithdrawalIsBare | internal/packet/path.go:226-234 | a withdrawal carries its routes and nothing else |
| Chunking.GreedyIsOptimal | internal/packet/path.go:387-431 | no order-preserving split within the budget uses fewer messages |
| Chunking.ChunkLength | internal/packet/path.go:440-450 | exact octets of a chunk's message from the probe's overhead, with the one octet the MP header may gain or lose |
| Chunking.ChunkFits | internal/packet/path.go:387-432 | a chunk within the budget serializes if and only if it does not fill the budget while its MP header grows; traditional IPv4 unicast always does; never more than one octet over |
| Chunking.ChunkRoutesCanOverflow | internal/packet/path.go:387-432 | a concrete withdrawal whose only greedy packing is one message of 4097 octets |
| Chunking.BuildDomain | internal/packet/path.go:199-286 | whether an UPDATE can be built depends on attributes, family and encoding, not on the routes |
| OpenMessage.BuildCapabilities | internal/packet/caps.go:49-107 | the capability list in wire order, or the error, ADD-PATH values and families checked |
| OpenMessage.CapsOffer | internal/packet/caps.go:49-107 | what a peer can read back from the list is exactly the configuration, per family and direction |
| OpenMessage.CapsContain | internal/packet/caps.go:49-107 | exactly which capabilities an OPEN contains |
| OpenMessage.AcceptedConfigsOpen | internal/peer/peer.go:38-75 | which configurations are accepted; an accepted one can be put in an OPEN if and only if its ADD-PATH modes are valid, and what its fields then are |
| OpenMessage.BuildOpen | internal/peer/message.go:20-47 | the OPEN: AS_TRANS beyond 16 bits, hold time in whole seconds, defaulted 4-octet AS |
| Fsm.Fsm.AcceptPeerOpen | internal/peer/fsm.go:264-351 | the verdict and every negotiated field, as questions about the union of the peer's capabilities |
| Fsm.Fsm.Handshake | internal/peer/fsm.go:205-262 | at most two messages are read; success if and only if an acceptable OPEN in time, our KEEPALIVE written, then a KEEPALIVE; which error otherwise; the state reached; and what was written, the NOTIFICATION of a rejection only if it could be |
| Fsm.Fsm.Open | internal/peer/fsm.go:132-203 | success conditions, which error otherwise, and for every outcome exactly the states stored and the messages written |
| Fsm.RefusalReasons | internal/peer/fsm.go:205-262 | exactly when the handshake fails for each reason |
| Fsm.MergeTuples | internal/peer/fsm.go:306-313 | modes of repeated families accumulate bit by bit |
| Negotiation.ViewsAreDual | internal/peer/fsm.go:264-351 | both ends get one hold time, the smaller of the two configured, and one keepalive tick, the same Extended Messages and Enhanced Refresh results, each other's real AS, and opposite ADD-PATH directions for every family |
| Negotiation.AddPathOutcome | internal/peer/fsm.go:318-336 | a direction is on exactly when we advertised it and the peer advertised the opposite one |
| Negotiation.PeerASIsSpokenFor | internal/peer/fsm.go:283-316 | the AS found is the one of the OPEN's last 4-octet AS capability, or My AS without any |
| Negotiation.VerdictIsExact | internal/peer/fsm.go:264-351 | an OPEN is refused for a hold time of one or two seconds, else for speaking for another AS than the configured one, else not at all |
| Negotiation.OpenChecksPeerAS | internal/peer/fsm.go:344-349 | Open succeeds only with the configured AS at the other end |
| Negotiation.BadOpenIsRefused | internal/peer/fsm.go:222-232 | a refused OPEN fails the call with that reason, drops the session to Idle and is answered by NOTIFICATION 2/6 or 2/2 if that can be written |
| Negotiation.PeersAreChecked | internal/peer/fsm.go:344-349 | two peers that accepted each other's OPEN are the ones the other was configured for |
| Negotiation.HoldIsSafe | internal/peer/fsm.go:264-281 | against any speaker the hold time is the smaller of the two, 0 or at least 3 s, and the tick its third |
| Negotiation.LimitsAgree | internal/peer/fsm.go:401-405 | whatever serializes under the negotiated options passes the other end's length check |
| SessionRuns.StatesClimbThenDrop | internal/peer/fsm.go:132-262 | every run climbs Idle, Active, OpenSent, OpenConfirm, Established without skipping and, once back in Idle, stays there |
| SessionRuns.EstablishedMeansHandshake | internal/peer/fsm.go:205-262 | over every interleaving at most two messages are heard, Established comes only after OPEN and KEEPALIVE, and no UPDATE is dispatched in a life that never reached it |
| SessionRuns.OpenIsARun | internal/peer/fsm.go:132-262 | the run that a call of Open stands for, its messages judged by acceptPeerOpen's verdict, stores the very states Fsm.Open stores and succeeds exactly when it does |
| SessionRuns.OnlyAcceptedPeersEstablish | internal/peer/fsm.go:132-262 | whatever caller, loops and peer do after Open, Established was stored if and only if the dial, our OPEN, an OPEN with an acceptable verdict, our KEEPALIVE and the peer's all went through in time; UPDATEs are dispatched in no other life |
| SessionRuns.FailureComesFromLoops | internal/peer/fsm.go:438-478 | the waiter-waking failure is recorded if and only if a loop failed, never by Close alone, and only after Idle and the closed connection; at most one Cease |
| SessionRuns.LoopsEndWithTheSession | internal/peer/fsm.go:370-478 | while the context given to Open lives, both loops have exited only if the state is Idle, and with the failure recorded unless a Close dropped it |
| SessionRuns.CancelledContextIsSilent | internal/peer/fsm.go:370-413 | once that context is cancelled between calls, both loops can exit with the state still Established, the connection open and the waiters not woken |
| SessionRuns.SilentLife | internal/peer/fsm.go:132-413 | a life from the constructor on that ends so |
| SessionRuns.JoinedIsFinal | internal/peer/fsm.go:438-464 | after a Close that joined the loops nothing changes the session any more |
| SessionRuns.NotificationIsFatal | internal/peer/fsm.go:391-436 | after a NOTIFICATION, or a failing read while not cancelled, no UPDATE is dispatched any more and the reader leaves only with the failure recorded, the connection closed and the state Idle |
| SessionRuns.FailureRunsThrough | internal/peer/fsm.go:370-478 | the four steps of a failure, of the reader or after a KEEPALIVE that could not be written, do all of that |
| SessionRuns.CloseRunsThrough | internal/peer/fsm.go:438-464 | a Close between calls can run through: one Cease, Idle, connection closed, both loops gone without a failure |
| SessionRuns.CloseTearsDown | internal/peer/fsm.go:438-464 | a Close that dropped the session and returned has sent one Cease and left nothing running or open |
| Send.ValidateRouteFamily | internal/peer/send.go:138-146 | least index of a route of another family, or none |
| Send.ValidatePathIDs | internal/peer/send.go:152-162 | accepted if and only if ADD-PATH send is on or no route carries a path id; else the least such index |
| Send.Sender.Admit | internal/peer/send.go:88-132 | which guard refuses a request, in the source's order, naming the least offending route; none exactly for an admissible request |
| Send.Sender.WriteChunk | internal/peer/send.go:191-211 | exactly this chunk's message is added for this writer, or nothing, whatever others write |
| Send.Sender.WriteUpdates | internal/peer/send.go:170-221 | our messages appear whole and in order, covering a chunk-aligned prefix counted by Sent, with SentAt the earliest write; all routes on success; otherwise where it stopped and why, a refusal to split only for unusable attributes, no room or the least oversize route |
| Send.Sender.Submit | internal/peer/send.go:88-132 | an inadmissible request writes nothing and reports its guard; success means every route was written in order; any other failure reports nothing sent, with a chunk-aligned prefix on the wire up to the chunk that stopped it |
| Send.OnlyOverfullFails | internal/packet/path.go:370-385 | of the chunks of one request exactly the overfull ones are refused as too long |
| Send.OwnPositions | internal/peer/send.go:191-220 | one writer's messages are every frame of it in the log, once each, in order |
| Send.EncodedAsNegotiated | internal/peer/send.go:178-182 | 2-octet AS numbers are used exactly if the peer's OPEN has no 4-octet AS capability, path ids exactly where both ends agreed, and the rest is the caller's choice |
| Framing.Reader.ReadMessageMax | internal/peer/message.go:92-122 | message, error and octets consumed, as a function of the unread stream and of what the codec parses |
| Framing.ReadIsSound | internal/peer/message.go:92-122 | a call succeeds if and only if a well-framed message that parses heads the stream, and returns it |
| Framing.FramingRoundTrip | internal/peer/message.go:92-122 | any concatenation of well-framed messages is read back message by message and ends cleanly, or at the first that does not parse |
| Framing.FramingIsUnambiguous | internal/peer/message.go:92-122 | equal streams are equal message sequences |
| Framing.OversizeStops | internal/peer/message.go:106-108 | a message over the cap is refused at its header |
| Framing.TruncationIsNoticed | internal/peer/message.go:92-122 | a stream that breaks off inside a message is an unexpected end, except right behind the header |
| Dispatch.Receiver.DispatchUpdate | internal/peer/recv.go:468-482 | MP attributes in order under their own family, then the legacy lists as IPv4 unicast |
| Dispatch.DispatchBuilt | internal/packet/path.go:199-286 | one request's message, however encoded, is one receiver operation with the keys of its routes all on one side |
| Dispatch.RouteKeyText | internal/peer/recv.go:160-177 | a route's key is its prefix, with ADD-PATH followed by its path id, 0 by default |
| Dispatch.EveryNlriIsRecorded | internal/peer/recv.go:464-482 | any UPDATE leaves in the history exactly one kind of event for each NLRI of each MP attribute and of both legacy lists, and nothing else |
| Dispatch.ApplyIsRun | internal/peer/recv.go:464-482 | dispatching is part of a run of the receiver, so every theorem about runs applies |
| Delivery.RequestIsDelivered | internal/peer/send.go:170-221 | over any run into which a request's messages are interleaved in order: compared with the run without them, exactly the sent keys become known, withdrawn or reachable, unless somebody else says the opposite meanwhile, and the counters grow by the number of routes |
| Delivery.WaiterSeesRequest | internal/peer/recv.go:201-243 | any linked waiter, whenever it registered, then misses a sent key exactly after a Withdraw, or if it was first seen before the cutoff; other keys are pending as without the request |
| Delivery.FirstSeenAcross | internal/peer/recv.go:178-182 | keys known before a request keep their first-seen time; the rest get one not before the UPDATEs read since |
| Delivery.AdvertiseWakes | internal/peer/recv.go:201-229 | a waiter with any cutoff not after the UPDATEs read since, that wants only advertised keys, is satisfied and released exactly when none has been withdrawn and none was known before the cutoff |
| Delivery.ScriptIsAnswered | bgp.go:341-390 | the same for a list of texts that the parser accepted, each asking for an advertised route, in the key style of the session |
| Delivery.LogIsMerge | internal/peer/send.go:191-220 | the whole log of a connection, other writers included, amounts to such an interleaving |
| Delivery.EncodingDoesNotShow | internal/packet/path.go:217-227 | encoding, message size, chunking and place among other operations leave the receiver with the same keys, withdrawals and counters |
| Delivery.NegotiatedDelivers | internal/peer/recv.go:484-488 | two peers that accepted each other's OPEN, a log that holds a submitted request's messages and a receiver that dispatches it while doing anything else: its run is such an interleaving, for every family |
| Barrier.BarrierIsSafe | internal/coord/barrier.go:53-70 | over every interleaving indices are distinct and cover 1..arrived, timed-out arrivals included; done closes at most once and only by the target index; nobody passes before target arrivals |
| Barrier.NobodyStaysBlocked | internal/coord/barrier.go:53-70 | a waiting thread can leave if and only if the target is reached and its closer has taken its step |
| Barrier.ArrivalRunsThrough | internal/coord/barrier.go:53-70 | a new arrival gets the next index, reaches the wait, and is let through there with that index and no error exactly if it or an earlier one closed the channel |
| Barrier.ReturnsAreFinal | internal/coord/barrier.go:53-70 | a thread returns no error only by a release, the timeout only if timed, and keeps what it returned |
| Barrier.Barrier.Count | internal/coord/barrier.go:54-54 | taking an index is the atomic step of the interleaving model |
| Barrier.Barrier.CloseIfTarget | internal/coord/barrier.go:55-57 | closing never happens twice |
| Barrier.Registry.Get | internal/coord/barrier.go:89-101 | the first creator's barrier is returned ever after, later targets ignored |
| Hub.CompleteExactlyWhenSafe | cmd/fakebgpd/main.go:58-84 | from any state, in every continuation in which the anchored wait succeeds, all that others had recorded before the request has been dispatched since, as often and in the order recorded, if and only if no EoRR already satisfies the wait (or nothing was recorded) and any EoRR on its way has all of it ahead |
| Hub.RefreshIsComplete | cmd/fakebgpd/main.go:58-84 | with no EoRR of the family on its way, requests still queued or not, that holds if and only if the last EoRR was read strictly before the request or nothing was recorded |
| Hub.EqualTimestampsDefeatTheAnchor | internal/peer/recv.go:118-118 | a run from an idle system after which a refresh in the instant of the previous EoRR misses an UPDATE |
| Hub.WaiterHoldsAnswer | internal/peer/recv.go:130-147 | a linked refresh waiter of a receiver that reads what the client reads holds an EoRR exactly when the wait is answered, whatever else happens |
| Hub.WaiterSeesCompleteRefresh | internal/peer/recv.go:431-462 | if such a waiter, anchored at a safe request, obtains an EoRR, nothing recorded before the request is missing |
| Hub.NoEoRRUnlessEnhanced | cmd/fakebgpd/main.go:71-83 | without RFC 7313 no replay end is ever marked |
| Hub.Hub.Replay | cmd/fakebgpd/main.go:61-84 | the writes of a replay: what others cached, in order, between the demarcations |
| Hub.OthersPositions | cmd/fakebgpd/main.go:61-70 | what is replayed is what was cached at exactly the positions of other sessions, in order |
| Hub.ReplayWrites | cmd/fakebgpd/main.go:61-84 | those messages, between BoRR and EoRR with RFC 7313 and alone without |
| Hub.Hub.Targets | cmd/fakebgpd/main.go:86-98 | a broadcast goes once to every client but the origin |

## Left out

- Attribute, capability, EVPN, MUP and VPN octet codecs: they belong to gobgp. An NLRI is its text, its encoded size (taken equal to WireLen) and its path id; path attribute headers are assumed in their shortest form, AS_PATH to have the size section 4.3 of RFC 4271 gives it, and MP_REACH_NLRI construction never to fail for a valid next hop.
- netip.ParsePrefix and the canonicalizers of route descriptors: functions given to `WaitList.dfy`, of which only the shape of a printed prefix is assumed.
- ParseBGPMessage: in `Framing.dfy` bodies are opaque octets and the codec any predicate on them; elsewhere messages are structures.
- Send.Conn.WriteLocked: a failing Write is taken to leave nothing on the wire; a partial one happens only on a connection that is broken or being closed.
- Send.Sender.WriteUpdates: does not model the sleep of UpdateRate, which changes nothing but time.
- ObservedSet.ObservedSet.FinalRead: WaitForPrefixes and WaitForRouteRefreshEnd are not single methods; registration, the latch and the final read are separate steps because anything may happen between them. The nil-FSM, empty-list and not-negotiated guards in front of them are omitted.
- ObservedSet.ObservedSet.ApplyUpdate: counters are unbounded; uint64 wrap-around is out of reach of any run.
- PathKey.SplitSuffix: does not distinguish the syntax and range errors of strconv.ParseUint.
- Fsm.Fsm.Handshake: deadlines, cancellation and the watcher goroutine are answers of the environment.
- SessionRuns.StatesClimbThenDrop: one caller thread, as the API documents; concurrent Open and Close calls are not covered.
- Barrier.NobodyStaysBlocked: says a thread can leave, not when the scheduler lets it.
- Hub.CompleteExactlyWhenSafe: links are reliable and FIFO, one client session is followed, the hub's handshake is over, and Enhanced Route Refresh was negotiated. Freshness of replayed state is not claimed: a live broadcast can overtake a replay.
- Metrics, JavaScript conversion, option parsing, pprof, logging and the example scripts: no property beyond their text.
- Route constructors and name tables (EVPN, MUP, VPN, families): single-branch validation.
- Graceful Restart: the capability is built but nothing is negotiated from it.
