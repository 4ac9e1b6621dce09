# Verified model of the Nexus proxy core

Nexus is a mesh of public relays. A backend behind NAT keeps a WebSocket to a hub and
serves the hub's clients through it; hubs forward to each other over peer tunnels. This
project models the parts of Nexus whose correctness is not visible in any one function, and
proves what they are for. Nothing here was executed: every statement is proved for all
inputs, all interleavings or all runs.

`dafny verify dfyconfig.toml` checks the project (Dafny 4.11).

## The components

**The reverse-credit loop** (`LedgerModel`, `HubModel`, `ClientModel`, `CreditLoop`,
`ClientSafety`, `CreditLoopSafety`, `CreditLoopProgress`, `CreditLedgers`, `BufferedConns`,
`ClientSequential`). A client may send a frame for each credit it holds; the hub buffers
frames for the TCP socket and grants credits back once eight are due. The client is an
automaton whose steps are single atomic operations (channel operations, atomic loads and
stores, compare-and-swap loops, critical sections), with any number of producers and notify
callbacks in flight. `CreditLoop` closes it with the hub and the network. The whole-run
theorems are conservation of credits, safety of the 128-slot buffer, in-order delivery, no
lost wakeup, bounded self-granting, stall coverage, no wedge, no livelock, and delivery of
everything queued. The last three hold from every reachable state, and delivery whatever order the
goroutines run in. The automaton follows the states of a connection: its producer starts when it becomes
active, a pending one closes its ledger plainly, and an active one with the teardown bonus. The same code also appears as the objects it
consists of (`CreditLedger`, `Connection`, `BufferedConn`), with a contract for each method,
and `ClientSequential` shows that a run of the automaton's actions without interference is
exactly one call of those methods.

**The weighted pool** (`WeightedSchedule`, `LoadBalancer`). `WeightedSchedule` is the simple
form: a cycle written down as a list. `LoadBalancerPool` is the gcd-driven scan, which is
proved to terminate from every state that adds, removes and selections leave behind, and on
the cycle to serve the next element of that list.

**The bandwidth scheduler** (`DeficitModel`, `Schedulers`). Arithmetic and accounting of one
bucket over any sequence of calls, then the scheduler with its active count and reference
counts.

**Close reasons and claims** (`CloseReasons`, `Sorting`, `ClaimFilters`, `Sessions`, `Refusals`). The hub
prints rejected claims into a 123-byte close reason (section 5.5 of RFC 6455 limits control
frames), and the client parses it. Claims are filtered against allowlists in a two-stage
handshake, and every re-authentication must filter to the same sets.

**UDP flow tables** (`UdpFlows`, `UdpOutbound`). A map with a list in order of last use. The
outbound table also owns one scheduler reference for every flow.

**Routing** (`Hostnames`, `Decimals`, `PeerLists`, `RoutingTable`, `HubRegistry`, `Mesh`, `PortMappings`). The mesh
table, the hub's own pools, and the client's port mappings, all of which match single-label
wildcards. `Mesh` puts the handshake, the registry and a peer's table together. Normalisation of
hostnames is a parameter: the results hold for any normaliser (`GrantFileable` and `Mesh` ask that it be
idempotent, `Mesh` also that it take no port key for a wildcard).

## Where the code and the expectation differ

The model follows the code.

- `creditLedger.Close` is documented to disable Replenish (client/credit_ledger.go:271-275);
  the code goes on granting, and so does `CreditLedger.Close`.
- `reapExpired` is documented to remove all expired flows (internal/peer/peer-manager.go:177-178).
  It stops at the first flow from the back that is not expired. `ReapExact` proves that it removes all of them if and
  only if no expired flow has an unexpired one behind it; `MixedReap` is a list where it does not.
- The advised wait of a denied send can be one nanosecond short. `WaitCanBeShort` is an instance,
  `WaitIsEnough` says exactly when a retry at the advised time succeeds, and `RetryAfterWait` that any
  later retry does.
- An outbound connection can forfeit its initial grant: the caller is told of success before
  `InitCredits` runs (client/client.go:1376-1392), and a ledger closed in between ignores it. The eight
  credits of `KickstartAndClose` are then enough to deliver what is queued (`NoWedgeTheorem`).
- The plain close of a ledger is explained by frames queued while the connection is pending
  (client/client.go:1669-1674). Nothing is queued then: the only producer starts once the connection is
  active (client/client.go:1522-1534, 2911-2920), and the model has it so.
- Round robin over a peer list is exact only while the 64-bit counter does not wrap, or the length divides
  its range (`RoundRobin`).
- Two spellings of one port mapping pattern can make the answer depend on the order in which the map is
  visited. `AlwaysOrderFree` says exactly when no answer does, `OrderFreeExactly` when a given one does not.
- Two spellings of one wildcard in an announcement share a route, and withdrawing one of them unlists
  both. `Table.Accept` proves that an announcement lands if and only if no withdrawn name shares a route
  with an announced one; `SpellingsAlias` is an instance and `CanonicalLands` shows that canonical names
  never do this.
- In the hub's registry a pool that has run empty still shadows the wildcard, while the mesh table falls
  through to it, so a hub can be handed a name it announces and then refuse it. `SelectBackend` states
  exactly when a covered name is served, and `Mesh.Route` when one handed over by a peer is.
- A close reason reads back exactly if and only if the codes it holds are non-empty and free of `:` and
  `,` (`RoundTrip`).

## Model

| member | source | states |
|---|---|---|
| `ClientSafety.WakeupTheorem` | client/credit_ledger.go:158-260 | in every reachable state, tokens, pending notifies and a drainer that has not cleared the flag total 1 if `signaled` and 0 otherwise; with frames queued and credits to spend, the flag is up or some actor is still before its own compare-and-swap |
| `ClientSafety.SelfGrantTheorem` | client/credit_ledger.go:292-408 | in every reachable state the balance is within its cap, at most one probe credit was granted in the current stall cycle and one teardown batch in all, and credits spent are at most those granted plus one per cleared cycle plus one |
| `ClientSafety.OneProbePerCycle` | client/credit_ledger.go:351-408 | any stretch of any run in which no stall cycle is cleared holds at most one self-grant |
| `ClientSafety.StallTheorem` | client/credit_ledger.go:221-260 | at rest with frames queued, no credits and not closed, the probe has been armed in this cycle, and its timer is pending or its one self-grant is used |
| `ClientSafety.InvAlways` | client/client.go:2328-2421 | every interleaving of producers, drainer, reader, closer, probe and notify callbacks keeps the client's invariant |
| `ClientSafety.LossMeansFull` | client/credit_ledger.go:318-335 | credits are thrown away only by a ledger that is then at its cap, or by cutting a grant down to the cap; no tally ever falls |
| `CreditLoopSafety.ConservationTheorem` | internal/hub/buffered_conn.go:235-416 | in every reachable state of client, network and hub, credits held, frames in flight or buffered, consumed frames and grants on the wire total 64 plus probes, bonus and frames sent past credits, less credits lost or forfeited, however often replenishing fails |
| `CreditLoopSafety.BufferSafetyTheorem` | internal/hub/buffered_conn.go:145-168 | the "client write buffer full" branch is unreachable while probe self-grants plus frames sent past credits are at most 56, after the teardown bonus too |
| `CreditLoopSafety.StreamTheorem` | client/client.go:2328-2421 | what has been written to the socket, is in hand, buffered, on the wire and queued is at all times exactly what was queued, in order |
| `CreditLoopSafety.NoWedgeTheorem` | internal/hub/buffered_conn.go:293-416 | in every quiescent reachable state everything ever queued has been delivered, and the client holds at least 57 credits, or at least one if it was closed before its initial grant arrived and lives on the teardown bonus |
| `CreditLoopSafety.BonusKept` | client/client.go:1605-1625 | every step keeps the eight credits of the bonus in the loop, whatever becomes of the initial grant |
| `CreditLoopSafety.SettledKept` | client/client.go:1522-1676 | every step keeps "nothing is queued before the connection is active, and one that has been active is closed with the bonus" |
| `CreditLoopSafety.HubShapeKept` | internal/hub/buffered_conn.go:235-416 | every step keeps "eight or more consumed if and only if the retry timer is armed", at every point where drain blocks |
| `CreditLoopProgress.WorkBoundTheorem` | client/client.go:2328-2421 | no livelock: in any run, the steps other than pushes and failed replenish retries are bounded by a constant for each frame pushed |
| `CreditLoopProgress.DeliveryTheorem` | internal/hub/buffered_conn.go:235-416 | from every reachable state without overflow there is a finite continuation by the loop's own steps that delivers every frame ever queued, without overflow and without the stall probe |
| `CreditLoopProgress.EveryScheduleDelivers` | internal/hub/buffered_conn.go:235-416 | and it need not be sought: from every reachable state, however the loop's own steps other than failed retries are chosen, there are at most as many as the state's potential, and where none is left and the hub has not overflowed every frame ever queued has been delivered |
| `CreditLoopProgress.StoppedMeansQuiescent` | internal/hub/buffered_conn.go:235-416 | such steps are left exactly in the states that are not quiescent |
| `ClientSequential.TurnIsOneCall` | client/client.go:2328-2421 | a turn of the drainer without interference ends in the state that `Connection.Drain` promises |
| `ClientSequential.ReplenishIsOneCall` | client/credit_ledger.go:158-170 | the automaton's replenish actions in a row are one call of `CreditLedger.Replenish` |
| `CreditLedgers.CreditLedger.constructor` | client/credit_ledger.go:85-104 | the initial balance clamped to between 0 and the cap; unlimited exactly for the largest 64-bit value |
| `CreditLedgers.CreditLedger.TryAcquire` | client/credit_ledger.go:114-127 | takes exactly one credit if there is one, and succeeds without one when unlimited |
| `CreditLedgers.CreditLedger.Release` | client/credit_ledger.go:134-147 | gives the credit back, saturating at the cap |
| `CreditLedgers.CreditLedger.AddCredits` | client/credit_ledger.go:318-335 | adds saturating at the cap, also when the 64-bit sum wraps |
| `CreditLedgers.CreditLedger.ClearStallCycle` | client/credit_ledger.go:399-408 | ends the stall cycle: probe unmarked, generation advanced, timer stopped |
| `CreditLedgers.CreditLedger.Replenish` | client/credit_ledger.go:158-170 | clears the cycle, adds the grant, and notifies exactly if nobody had; closing does not disable it |
| `CreditLedgers.CreditLedger.InitCredits` | client/credit_ledger.go:184-211 | installs the first grant, panics on a second, does nothing on a closed ledger, and leaves an unlimited ledger unlimited |
| `CreditLedgers.CreditLedger.ArmStallProbe` | client/credit_ledger.go:351-392 | arms one timer per stall cycle, for the generation then current |
| `CreditLedgers.CreditLedger.FireProbe` | client/credit_ledger.go:360-391 | a timer grants one credit if and only if its generation is current, the balance is used up and the ledger is open; then it wakes the drainer unless somebody had |
| `CreditLedgers.CreditLedger.NotifyEnqueue` | client/credit_ledger.go:221-232 | wakes the drainer once if credits are spendable, and otherwise arms the probe |
| `CreditLedgers.CreditLedger.DrainYielded` | client/credit_ledger.go:248-260 | clears the flag, then wakes again exactly if frames and credits remain, and arms the probe if only frames do |
| `CreditLedgers.CreditLedger.Close` | client/credit_ledger.go:276-284 | closes once, stopping the probe's timer |
| `CreditLedgers.CreditLedger.KickstartAndClose` | client/credit_ledger.go:292-306 | grants the teardown bonus at most once, then closes |
| `CreditLedgers.Connection.Enqueue` | client/client.go:2105-2148 | waits through any timeouts as long as the connection is tracked, open and out of credits; queues the frame at the first free slot, when, if the connection is still tracked, the drainer is woken or the stall probe armed; any other end of the wait changes nothing |
| `CreditLedgers.Connection.Drain` | client/client.go:2328-2421 | writes the frames at the front, as many as credits, turn limit and queue allow, one credit each; a failed write gives its credit back, and otherwise the flag is up exactly if frames and credits remain |
| `CreditLedgers.Connection.SendTurn` | client/client.go:2328-2421 | the sending part of a turn: frames written in order, one credit spent for each |
| `BufferedConns.BufferedConn.Write` | internal/hub/buffered_conn.go:145-168 | queues within 128 slots or fails, changing nothing else |
| `BufferedConns.BufferedConn.TryReplenish` | internal/hub/buffered_conn.go:293-322 | grants all that is due if the control lane takes it and otherwise keeps the count; grants plus consumed never change |
| `BufferedConns.BufferedConn.GateWait` | internal/hub/buffered_conn.go:323-416 | retries inside the gate wait keep the retry invariant and lose no credit |
| `BufferedConns.BufferedConn.Round` | internal/hub/buffered_conn.go:235-416 | one round of drain writes one frame, counts it and keeps the retry invariant |
| `BufferedConns.BufferedConn.Drain` | internal/hub/buffered_conn.go:235-416 | over any script of events, what was written is a prefix of what was accepted, grants plus consumed equal frames written, and with the retry timer disarmed fewer than eight are owed |
| `BufferedConns.BufferedConn.FlushRemaining` | internal/hub/buffered_conn.go:421-435 | writes what is left in order, up to a failed write |
| `WeightedSchedule.CycleCount` | internal/hub/loadbalancer.go:63-87 | the simple cycle serves each backend exactly its share of times |
| `WeightedSchedule.CycleLength` | internal/hub/loadbalancer.go:63-87 | and is as long as the shares together |
| `WeightedSchedule.WindowIsFair` | internal/hub/loadbalancer.go:63-87 | any window of one cycle's length, from the start or from any point of a cycle, serves each backend its share and ends where it began |
| `LoadBalancer.FairWindow` | internal/hub/loadbalancer.go:63-120 | any (sum of weights)/gcd draws from the cycle serve backend i exactly weight/gcd times and leave the same rest |
| `LoadBalancer.Gcd` | internal/hub/loadbalancer.go:89-94 | the loop computes a positive number with exactly the common divisors of both |
| `LoadBalancer.GcdIsGreatest` | internal/hub/loadbalancer.go:106-120 | which is the greatest common divisor |
| `LoadBalancer.LoadBalancerPool.RecalculateGCD` | internal/hub/loadbalancer.go:106-120 | the stored divisor is that of all weights, 1 for an empty pool |
| `LoadBalancer.LoadBalancerPool.AddBackend` | internal/hub/loadbalancer.go:30-35 | appends and keeps the pool valid |
| `LoadBalancer.LoadBalancerPool.RemoveBackend` | internal/hub/loadbalancer.go:37-52 | removes the first backend with the id, the last one taking its place |
| `LoadBalancer.SwapRemove` | internal/hub/loadbalancer.go:47-51 | which takes exactly that element out of the multiset |
| `LoadBalancer.LoadBalancerPool.MaxWeight` | internal/hub/loadbalancer.go:96-104 | a weight some backend has and none exceeds |
| `LoadBalancer.LoadBalancerPool.Select` | internal/hub/loadbalancer.go:63-87 | terminates from every valid state with a backend that reaches the current level; on the cycle it serves the next element after looking at fewer than 2n backends |
| `LoadBalancer.LoadBalancerPool.SelectMany` | internal/hub/loadbalancer.go:63-87 | a run of selections on an unchanged pool serves exactly the indices the simple cycle prescribes |
| `LoadBalancer.LoadBalancerPool.SelectWindow` | internal/hub/loadbalancer.go:63-120 | so on an unchanged pool of two or more, from the start or anywhere on the cycle, (sum of weights)/gcd calls of Select serve backend i exactly weight/gcd times and leave the pool where it was |
| `DeficitModel.Share` | internal/bandwidth/scheduler.go:330-339 | the fair share is at least 1 and at most the total |
| `DeficitModel.EarnedExact` | internal/bandwidth/scheduler.go:346-350 | dividing first gives floor(rate*elapsed/10^9) exactly |
| `DeficitModel.EarnedFits` | internal/bandwidth/scheduler.go:346-350 | and its product fits in 64 bits for rates up to 9*10^9 |
| `DeficitModel.AdmissionBound` | internal/bandwidth/scheduler.go:170-261 | over any calls since registration with any active counts, the deficit is never negative and 10^9*(admitted - refunded + deficit) is at most the total rate times the time up to the last activity |
| `Schedulers.Scheduler.Admitted` | internal/bandwidth/scheduler.go:170-261 | the same bound of the scheduler itself: for every backend whose clock has not run backwards, after any calls of its methods |
| `DeficitModel.RetryAfterWait` | internal/bandwidth/scheduler.go:200-228 | a denied request of at most 128 KiB is admitted at any time strictly later than the advised wait |
| `DeficitModel.WaitCanBeShort` | internal/bandwidth/scheduler.go:216-228 | an instance at 3 Mbit/s where a retry at exactly the advised time is denied |
| `DeficitModel.WaitIsEnough` | internal/bandwidth/scheduler.go:216-228 | a retry at exactly the advised time is admitted if and only if the advice was rounded up to its minimum of 1 ms or the share divides what was lacking |
| `Schedulers.Scheduler.Register` | internal/bandwidth/scheduler.go:94-99 | replaces the id's bucket; the active count stays exact if and only if the id was not active |
| `Schedulers.Scheduler.Unregister` | internal/bandwidth/scheduler.go:102-110 | drops the bucket and keeps the active count exact; the scheduler stays consistent if and only if the id was not shared |
| `Schedulers.Scheduler.RegisterShared` | internal/bandwidth/scheduler.go:117-135 | one more reference; the first creates the bucket, the rest keep it |
| `Schedulers.Scheduler.UnregisterShared` | internal/bandwidth/scheduler.go:139-165 | one reference fewer; the last takes the bucket with it |
| `Schedulers.Scheduler.RequestSend` | internal/bandwidth/scheduler.go:170-229 | marks the backend active, credits it once, and admits if and only if the credit covers the request; the active count stays exact |
| `Schedulers.Scheduler.RefundSend` | internal/bandwidth/scheduler.go:233-243 | hands back what was reserved, to that backend and its account only |
| `Schedulers.Scheduler.RecordSent` | internal/bandwidth/scheduler.go:246-261 | changes the record and the account of that backend only |
| `Schedulers.Scheduler.CheckIdleBackends` | internal/bandwidth/scheduler.go:390-404 | resets exactly the backends idle for over a second and keeps the active count exact |
| `CloseReasons.Encode` | internal/hub/hub.go:1003-1047 | at most 123 bytes, holding the longest prefix of entries that fits, with the truncation tail if and only if one was dropped |
| `CloseReasons.Parse` | client/client.go:2667-2695 | the loop reads exactly what the specification of a reason says, all entries or none |
| `CloseReasons.RoundTrip` | internal/hub/hub.go:1003-1047 | what was encoded reads back as the kept (code, sanitised value) pairs and the truncation flag if and only if the kept codes are good |
| `CloseReasons.GoodRoundTrip` | client/client.go:2667-2695 | so it always does for codes that are non-empty and free of separators |
| `CloseReasons.JoinedHasNoTail` | client/client.go:2667-2695 | a complete list never looks truncated, values like "..." included |
| `CloseReasons.ReadCodesAreGood` | client/client.go:2667-2695 | whatever text arrives, every code read out of it is good |
| `CloseReasons.SendAndRead` | internal/hub/hub.go:1003-1047 | printing then parsing gives back a prefix of the rejected claims, truncated if and only if one was dropped |
| `Refusals.CloseAndRead` | internal/hub/hub.go:336-352 | a session ended for its policy reports its rejections: the client reads a prefix of them, marked truncated exactly if one is missing; any other end carries the error text |
| `Refusals.RefuseAndRead` | internal/hub/hub.go:548-621 | a well-formed token that leaves nothing to serve is refused, and its sender reads back a prefix of the relay's rejections of it |
| `Refusals.ReauthAndRead` | internal/hub/backend.go:1330-1484 | a well-formed token that no longer filters to the grant, or asks for another weight, ends the session; the client reads a prefix of its rejections, those of the outbound claims included exactly if everything before them agrees, or the error text if there are none |
| `Refusals.PortIsShown` | internal/hub/hub.go:991-998 | a rejected port comes through as its number |
| `Refusals.ReservedIsElided` | internal/hub/hub.go:991-998 | a reserved name never comes through: it is always elided |
| `ClaimFilters.AppendRejected` | internal/hub/hub.go:776-782 | keeps the first 32 rejections in order and the truncation flag true if and only if there were more |
| `ClaimFilters.NormalizeTcpPorts` | internal/hub/hub.go:829-862 | malformed exactly if claims are disabled or a port is out of range; otherwise the sorted, duplicate-free allowlist filter and the first 32 misses |
| `ClaimFilters.NormalizeOutboundPorts` | internal/hub/hub.go:930-968 | the same for outbound ports, with an empty allowlist allowing all and claims without permission malformed |
| `ClaimFilters.PortFilterUnique` | internal/hub/hub.go:829-862 | there is only one such list |
| `ClaimFilters.NormalizeUdpRoutes` | internal/hub/hub.go:867-925 | malformed exactly if disabled, bounds inverted, a port out of range or two allowed claims of one port with different clamped timeouts; otherwise exactly the allowed routes by port and the first 32 misses |
| `ClaimFilters.Timeout` | internal/hub/hub.go:899-908 | the timeout is within the relay's bounds |
| `ClaimFilters.NormalizeHostnames` | internal/hub/hub.go:787-824 | malformed exactly if every name is blank; otherwise the canonical names in order of first mention and the first 32 reserved ones |
| `ClaimFilters.HostFilterMeans` | internal/hub/hub.go:787-824 | which are distinct and exactly the names claimed that are neither blank nor reserved |
| `ClaimFilters.SameStringSets` | internal/hub/hub.go:1082-1100 | counting with a map decides equality as multisets |
| `ClaimFilters.SameIntSets` | internal/hub/hub.go:1102-1119 | sorting and comparing decides equality as multisets |
| `ClaimFilters.SameUdpRoutes` | internal/hub/hub.go:1121-1141 | agreement implies equality as multisets, and conversely where no port has two timeouts |
| `Sorting.SortSorts` | client/config.go:203-205 | sorting by a key permutes into order |
| `Sorting.SortedUnique` | internal/hub/hub.go:1109-1118 | where the key tells elements apart, a multiset has one sorted arrangement |
| `Sessions.ValidateStage0Claims` | internal/hub/hub.go:548-621 | admits a token if and only if it is well formed, recent and leaves something to serve; grants its filter in canonical form; an empty filter reports the rejections |
| `Sessions.CheckAgain` | internal/hub/backend.go:1330-1390 | a later token agrees if and only if it is well formed and filters to the very sets granted; the rejections reported are its inbound ones, with the outbound ones if everything before them agrees |
| `Sessions.BuildMetadata` | internal/hub/hub.go:623-752 | attested if and only if the nonce, the sets, the weight and the terms agree; the metadata carries exactly the grant and the token's rejections |
| `Sessions.Backend.constructor` | internal/hub/backend.go:163-201 | the session starts with the grant and terms of the metadata |
| `Sessions.Handshake` | internal/hub/hub.go:548-752 | a backend exists if and only if the first token passes, the second answers the nonce and both filter alike; it is granted the filter of both |
| `Sessions.Backend.ApplyClaims` | internal/hub/backend.go:1330-1438 | succeeds if and only if the token filters to the session's sets with no other weight; the grant never changes and a failure changes nothing |
| `Sessions.Session` | internal/hub/backend.go:1330-1438 | over any tokens the session goes on exactly as long as they are stable, with the grant it began with |
| `UdpFlows.UdpFlowTable.constructor` | internal/proxy/udp_listener.go:87-97 | an empty table with the default capacity for a non-positive one |
| `UdpFlows.UdpFlowTable.Get` | internal/proxy/udp_listener.go:105-116 | a hit moves the flow to the front with a fresh time; map and list stay in step |
| `UdpFlows.UdpFlowTable.Add` | internal/proxy/udp_listener.go:131-146 | the flow replaces any of its key, in front, and eviction follows |
| `UdpFlows.UdpFlowTable.Remove` | internal/proxy/udp_listener.go:118-129 | takes exactly the flow of the key out of both |
| `UdpFlows.UdpFlowTable.Evict` | internal/proxy/udp_listener.go:154-189 | eviction from the tail equals filtering: it leaves the survivors, with one RemoveClient for each flow dropped and none for a flow kept |
| `UdpFlows.SurvivorsMostRecent` | internal/proxy/udp_listener.go:154-189 | survivors are live, and a live flow is dropped only if as many flows as fit, all at least as recent, survive |
| `UdpOutbound.Manager.Touch` | internal/peer/peer-manager.go:64-88 | using a flow moves it to the front in list and both maps |
| `UdpOutbound.Manager.GetByKey` | internal/peer/peer-manager.go:64-75 | a hit is the flow of the key, used; a miss changes nothing |
| `UdpOutbound.Manager.GetByID` | internal/peer/peer-manager.go:77-88 | the same by id |
| `UdpOutbound.Manager.AddIfAbsent` | internal/peer/peer-manager.go:118-134 | adds in front, or uses the flow that holds the key |
| `UdpOutbound.Manager.Remove` | internal/peer/peer-manager.go:136-151 | removal goes by id: a flow already gone is not found and the later holder of its key is untouched |
| `UdpOutbound.Manager.Discard` | internal/peer/peer-manager.go:328-361 | removal releases the flow's reference exactly when the flow was there |
| `UdpOutbound.Manager.MakeRoom` | internal/peer/peer-manager.go:153-175 | at capacity exactly the least recently used flow goes |
| `UdpOutbound.Manager.Reap` | internal/peer/peer-manager.go:308-324 | leaves what the tail scan leaves, and references still equal live flows plus tunnels; with equal timeouts and a running clock no expired flow is left |
| `UdpOutbound.ReapExact` | internal/peer/peer-manager.go:179-201 | only expired flows go; all of them go if and only if none has an unexpired flow behind it |
| `UdpOutbound.UniformReap` | internal/peer/peer-manager.go:179-201 | with one timeout and a list in order nothing expired is missed |
| `UdpOutbound.MixedReap` | internal/peer/peer-manager.go:179-201 | with two timeouts an expired flow can stay |
| `UdpOutbound.TouchOrdered` | internal/peer/peer-manager.go:64-134 | using a flow keeps the list in order of last use, as the contracts of ForwardUDP, HandleData, HandleClose and Reap carry on |
| `UdpOutbound.Manager.OpenTunnel` | internal/peer/peer.go:465-470 | an open TCP tunnel holds one reference on a metered hub |
| `UdpOutbound.Manager.CloseTunnel` | internal/peer/peer.go:465-470 | and releases it on closing |
| `UdpOutbound.Manager.HandleData` | internal/peer/peer-manager.go:342-361 | data uses the flow; a client that cannot be written loses it and its reference |
| `UdpOutbound.Manager.HandleClose` | internal/peer/peer-manager.go:363-372 | a close from the peer removes the flow and its reference |
| `UdpOutbound.Manager.Meter` | internal/peer/peer-manager.go:393-409 | a datagram is dropped if and only if the credit does not cover it, a sent one is paid for, a failed send is refunded in full, and no other bucket changes |
| `UdpOutbound.Manager.SendOn` | internal/peer/peer-manager.go:393-409 | the same on a live flow, which a failed send loses together with its reference; a hub without a scheduler never throttles |
| `UdpOutbound.Manager.OpenFlow` | internal/peer/peer-manager.go:411-498 | a new flow in front with its reference, or none at all when opening or the first send fails |
| `UdpOutbound.Manager.ForwardUDP` | internal/peer/peer-manager.go:374-498 | the key has a fresh flow in front if and only if the datagram was sent or dropped for bandwidth; other flows are untouched, except that a new flow at capacity costs the oldest; maps, list, order of last use and references stay exact |
| `Hostnames.MatchersAgree` | client/config.go:234-243 | suffix-and-no-dot matching holds if and only if the suffix is the host's own from its first dot |
| `Hostnames.MatchUnique` | client/config.go:234-243 | so at most one wildcard matches a host |
| `Hostnames.WildcardCovers` | hostnames/hostnames.go:51-90 | a valid wildcard covers exactly the names with one non-empty label in place of its star |
| `Hostnames.WildcardSuffix` | hostnames/hostnames.go:74-80 | a suffix is non-empty and starts with a dot |
| `PeerLists.PeerList.Add` | internal/routing/peerlist.go:27-36 | appended unless present; nobody is listed twice |
| `PeerLists.PeerList.Remove` | internal/routing/peerlist.go:39-50 | swap-remove takes exactly that peer out |
| `PeerLists.PeerList.Select` | internal/routing/peerlist.go:60-71 | the peer at the incremented counter modulo the length, with 64-bit wrap-around |
| `PeerLists.RoundRobin` | internal/routing/peerlist.go:60-71 | as many calls in a row as there are peers choose each exactly once if and only if the 64-bit counter does not wrap among them, or wraps just before them, or the number of peers divides 2^64 |
| `RoutingTable.Table.Accept` | internal/routing/table.go:42-81 | the table agrees with a new announcement if and only if no withdrawn name shares a route with an announced one |
| `RoutingTable.Table.UpdateRoutesForPeer` | internal/routing/table.go:33-83 | stale announcements change nothing; newer ones replace that peer's names and no other's, with the same exact condition |
| `RoutingTable.Table.ClearRoutesForPeer` | internal/routing/table.go:86-103 | a peer that leaves is listed nowhere, and nobody else moves |
| `RoutingTable.Table.GetPeerForHostname` | internal/routing/table.go:106-125 | an announcer of the name if there is one, else one of its first-dot wildcard, else none |
| `RoutingTable.Reconciled` | internal/routing/table.go:50-78 | adding then removing reaches the announced set exactly without aliases |
| `RoutingTable.CanonicalLands` | internal/routing/table.go:33-83 | announcements of canonical names always land |
| `RoutingTable.SpellingsAlias` | internal/routing/table.go:62-78 | withdrawing one of two spellings unlists a wildcard still announced |
| `HubRegistry.Registry.Register` | internal/hub/hub.go:1143-1182 | given different routes, the backend is in exactly their pools, once, and no other pool changes |
| `HubRegistry.RoutesDiffer` | internal/hub/hub.go:1143-1182 | the canonical hostnames, TCP ports and UDP ports of a grant are all filed under different routes |
| `HubRegistry.GrantFileable` | internal/hub/hub.go:787-824 | what a handshake grants meets the conditions for that, for an idempotent normaliser |
| `HubRegistry.Registry.RegisterSession` | internal/hub/hub.go:1143-1182 | so a registered session is in exactly the pools of its names and ports, once |
| `Decimals.ItoaReads` | protocol/protocol.go:26-33 | a port number in a route key or a rejection is digits only and reads back as itself |
| `HubRegistry.Registry.Unregister` | internal/hub/hub.go:1184-1227 | it leaves every pool; the pools stay |
| `HubRegistry.Registry.SelectBackend` | internal/hub/hub.go:224-236 | succeeds if and only if somebody covers the name and no emptied pool of its own shadows the wildcard; the backend chosen serves the name |
| `HubRegistry.LastOneLeaves` | internal/hub/hub.go:224-236 | when the last backend of a name leaves, the name fails although a wildcard still covers it |
| `HubRegistry.Registry.GetLocalRoutes` | internal/hub/hub.go:1236-1255 | announces exactly the routes somebody serves |
| `HubRegistry.AnnounceRoundTrip` | internal/hub/hub.go:1236-1255 | a canonical name comes back from an announcement as the route it was filed under |
| `Mesh.Join` | internal/hub/hub.go:1143-1182 | a session is registered if and only if it passes the handshake, under exactly the routes of its grant, and every route served stays one that survives its announcement |
| `Mesh.Leave` | internal/hub/hub.go:1184-1227 | a session that ends takes its routes with it and keeps that invariant |
| `Mesh.SessionAnnounceable` | internal/hub/hub.go:1143-1182 | every route of a grant is read back from its announced name, and wildcards are announced in canonical form |
| `Mesh.AnnouncedExactly` | internal/hub/hub.go:1236-1255 | the names a hub of such sessions announces are filed by a peer under exactly the routes the hub serves |
| `Mesh.Announce` | internal/peer/peer-manager.go:518-543 | a peer that accepts the announcement lists the hub under exactly the routes it serves, and its table goes on agreeing with what was announced; nobody else moves, and a stale announcement changes nothing |
| `Mesh.Route` | internal/peer/peer-manager.go:551-596 | a request for any name the hub covers finds a peer, and the hub is never handed a name it does not cover; handed one, it has a backend for it unless an emptied pool shadows the wildcard |
| `PortMappings.PortMapping.Finalize` | client/config.go:171-210 | whatever order the entries are visited in, succeeds if and only if every entry has a target and a pattern; then every configured pattern is filed under its canonical form, wildcards longest first |
| `PortMappings.PortMapping.Resolve` | client/config.go:212-232 | answers as the order of the visit decides: the last entry visited for the name itself, else the first for its first-dot wildcard, else the default; always a configured target |
| `PortMappings.ChosenAnswers` | client/config.go:171-232 | whatever the order, the answer is a target configured for the name, else for its wildcard, else the default |
| `PortMappings.SortFirst` | client/config.go:203-205 | the sort is stable, so the first route of a suffix stays the first |
| `PortMappings.AnswerUnique` | client/config.go:171-232 | where patterns that normalise alike have one target, the answer does not depend on map order or on the sort |
| `PortMappings.OrderFreeExactly` | client/config.go:171-232 | a lookup answers alike for every order of the visit if and only if the entries that may answer it have one target |
| `PortMappings.AlwaysOrderFree` | client/config.go:171-232 | every lookup does if and only if patterns that normalise alike have one target, as far as a lookup can turn to them |
| `PortMappings.LastAnswers` | client/config.go:171-232 | of the entries for one name the one visited last answers |
| `PortMappings.FirstAnswers` | client/config.go:171-232 | of the entries for one wildcard the one visited first answers, for a name that only the wildcard covers |

## Left out

- Forward credits (hub semaphore, client write channel, direct UDP writes) and the credits of peer tunnels: frames before the first grant are not metered there, so no conservation law holds.
- WebSocket, TCP, TLS, SNI peeking, ACME, STUN, HTTP and the registration client: I/O and libraries.
- JWT validation, remote verification, nonces and the parsing of status URIs: a nonce is a value and the URI check a given answer.
- JSON and YAML encoding, logging, statistics, events and backoff jitter.
- Hostname normalisation itself (trimming, IDNA, lower case): a parameter of every member that uses it.
- Timing of teardown (flush delay, drain timeout, grace periods): the steps may happen at any time.
- The credit loop assumes that the session stays open and the connection tracked; a failed WebSocket write, or the end of the drain after a close (client/client.go:1621-1652), ends the run.
- The body of the stall probe's timer and the critical sections under its mutex are one step each.
- The deficit cap, which the scheduler computes in floating point, is given to each request as any value of at least 128 KiB.
- Scheduler and flow-table calls are whole steps. Finer interleavings of Unregister and RequestSend do not keep the active count exact, and the branch of ForwardUDP for a lost race is then unreachable.
- The scheduler's admission bound speaks of backends on which the clock has not run backwards; another backend's account is given up.
- Durations are unbounded integers: products of seconds that overflow 64 bits are not modelled.
- The hub's UDP idle timeout by port (the maximum over the backends that claim it): only easy members.
- ClaimFilters.SameUdpRoutes: one direction only for a list in which a port has two timeouts, because an unstable sort by port decides there; accepted routes never contain one.
- Peers are known by their address, as the table compares them.
