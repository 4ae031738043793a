# A model of the AnyTLS listener wrapper for Caddy

The wrapper sits between a listener and Caddy's HTTP server. It looks at the
first bytes of each connection, gives websites back to the server with no byte
missing, and serves the AnyTLS users' connections itself: it counts their
sessions and streams, checks where they want to go, races dials to the resolved
addresses and relays until one end closes. This project models these parts in
Dafny and proves what they promise.

How the parts are modelled:

- **Protocols between goroutines** are state machines. An event is one atomic
  step (a channel rendezvous, a load, a compare-and-swap, one section under a
  mutex, one clock or timer event); a run is a chain of events, each enabled
  where it occurs. A theorem with `run.Legal(..)` as its hypothesis covers every
  interleaving of any number of goroutines: `Dialer`, `Accounting`,
  `AcceptPipeline`, `IdleTimeout`.
- **Code that changes things step by step** is a class or a method with the
  source's loop: `Limits`, `BufferedConn`, `WebsiteConn`, `IdleTimeoutConn`,
  the dialer's select loop, the cache loop of `PacketRelay`, the relay and the
  handlers. Each is proved against a specification, a machine or a declarative
  description, and that specification has its own theorems.
- **Decisions** are functions, each compared with an independent flat reading:
  the nested method dispatch with a table of 17 prefixes, suffix matching with
  matching by labels, the multi-pass policy with one predicate, the private
  ranges with thirteen address blocks.

| module | models |
|---|---|
| `Interleave`, `Dialer`, `Outbound` | `handler.go`: the dial order, the race of the dials and its drainer, the way from policy to dial |
| `Accounting`, `Limits` | `limits.go`, `session_registry.go`: the three accounts, interleaved and as objects |
| `AcceptPipeline` | `listener.go`: accept loop, workers, callers of `Accept`, stop |
| `Transport`, `BufferedConn`, `WebsiteConn` | `buffered_conn.go`, `website_conn.go`, `prepareWebsiteConn`: peek and replay |
| `Users`, `Routing` | `detector.go`, user checks of `anytls.go`, classification in `listener.go` |
| `IdleTimeout` | `listener.go`: the idle timer |
| `PacketRelay` | `uot.go`: the destination cache |
| `Handler` | `handler.go`, `relay.go`, `uot.go`: slots, connections and callbacks on every path |
| `Policy`, `Domains`, `Net` | `policy.go`, `resolveDestination` |

Results worth knowing:

- A dial that sends a connection together with an error loses that connection.
  `Dialer.LeaksIffDialsBreakContract` shows that this is the only way: some run
  loses a connection if and only if some dial breaks that contract.
- The design document says TCP targets are dialed in resolver order
  (`docs/technical-design.md:80`). The code alternates address families, and the
  model follows the code. `Interleave.ResolverOrderIff` says exactly when the
  first `n` dials keep the resolver's order: if and only if that order already
  alternates among them until one family is exhausted.
  `Interleave.ResolverOrderIsNotKept` gives the lists that fail, two IPv4
  addresses before an IPv6 one.
- `Fallback` governs only streams whose probe failed. A recognised website
  prefix goes to the website with the setting off as well
  (`Routing.FallbackGovernsFailuresOnly`).
- A connection closed locally while its bytes end inside a prefix the dispatch
  has settled on counts as a website, but not before the dispatch has settled:
  four bytes after `P`, three after `S`. A close by the peer is the end of the
  stream and a failed probe. `Routing.DispatchIsFlat` states the set exactly. A
  connection that refuses the probe's deadline because it is closed locally is a
  website in the same way.
- Acceptance by the policy does not depend on the order of the addresses
  (`Policy.OrderDoesNotMatter`). The reason of a refusal depends on it if and
  only if no address is denied and the addresses mix one refused as private with
  one refused for another reason (`Policy.ReasonDependsOnMixture`);
  `Policy.RefusalReasonDependsOnOrder` is such an input.
- An address that is not valid can pass the policy where no allow list of
  networks is in use, and a packet for it goes through the system's resolver,
  unchecked. `Outbound.PreparedIsAllowedIff`: every packet goes to an allowed
  address if and only if the address that passed is valid or the policy
  restricts no address.
- The unchecked branch of `validateDestination` agrees with the checked one on
  every configuration whose prefixes were compiled from its entries. This is the
  hypothesis `Provisioned`, and `Policy.CompileCIDRPolicies` establishes it.
- The cached packet loop writes and ends as the loop without a cache if and only
  if no packet it comes to would have got another answer than the one
  remembered for it (`PacketRelay.CacheIsInvisible`). Whose answer is remembered
  is `PacketRelay.Source`, a function of destinations and times alone. Answers
  that change only once they have run out are enough
  (`PacketRelay.StableIsEnough`); `PacketRelay.ChangedAnswerShows` is an input
  where the loops differ.

## Model

| member | source | states |
|---|---|---|
| Interleave.InterleaveAddressFamilies | handler.go:251-277 | the two grouping and merging loops compute the interleaved order |
| Interleave.InterleavedIsInterleaving | handler.go:251-277 | each family keeps its order, the first address stays first, and once two neighbours share a family only that family is left |
| Interleave.InterleavingIsUnique | handler.go:251-277 | that description has exactly one solution, the order computed |
| Interleave.InterleavingIsIdempotent | handler.go:251-277 | interleaving an interleaved list changes nothing |
| Interleave.InterleavingIsPermutation | handler.go:251-277 | every address is dialed as often as it was resolved |
| Interleave.ResolverOrderIff | docs/technical-design.md:80 | the first n dials keep the resolver's order exactly if that order alternates among them until one family is exhausted |
| Interleave.ResolverOrderIsNotKept | docs/technical-design.md:80 | two IPv4 addresses before an IPv6 one are not dialed in the resolver's order |
| Dialer.RunInv | handler.go:188-239 | in every interleaving of results, timer, context end and drainer: launches are the first `next` addresses, `inFlight + len(errs) = next`, the timer is armed exactly while addresses remain, and each result rests in one place |
| Dialer.EveryEventCosts | handler.go:201-238 | a measure strictly decreases with every event of the loop and the drainer |
| Dialer.RunsAreShort | handler.go:188-249 | race and drainer end after at most twice as many events as there are addresses |
| Dialer.UnfinishedCanMove | handler.go:175-249 | until all is finished a goroutine can hand over its result; when finished none is left blocked on the channel |
| Dialer.TimerStands | handler.go:192-232 | stopping, resetting and clearing the timer branch by branch never loses it: while the loop runs it can fire exactly if an address is left to launch |
| Dialer.LaunchesAreTriggered | handler.go:201-232 | each fire of the timer and each unusable result launches one more address, at once and whatever is in flight, while any is left; nothing else does |
| Dialer.FirstUsableWins | handler.go:204-208 | the first result received that has a connection and no error wins, and nothing else does |
| Dialer.Conservation | handler.go:201-249 | at the end each produced connection is the returned one, was closed once by the drainer, or came with an error; never two of these |
| Dialer.HonestDialsLoseNothing | handler.go:201-249 | if errors come without connections, each connection is returned or closed exactly once, on every exit |
| Dialer.LeaksIffDialsBreakContract | handler.go:204-215 | a run that drops a connection exists if and only if some dial sends a connection with an error |
| Dialer.FailureIsComplete | handler.go:209-239 | giving up with the context alive means every address was dialed and failed, one error for each |
| Dialer.OnError | handler.go:209-223 | an unusable result, with the launch and the timer as the branch sets them, is the receive event of the machine, index in range, and shrinks the loop's measure |
| Dialer.OnTimer | handler.go:224-231 | the timer branch is the timer event of the machine, index in range, and shrinks the loop's measure |
| Dialer.RaceDials | handler.go:188-240 | the select loop with its drainer ends, for every choice of branch, with the outcome of a finished legal run; dialed addresses are the first launched ones in order, and every connection they produced is the returned one, was closed once, or came with an error |
| Dialer.DrainDialResults | handler.go:242-249 | the drainer receives every outstanding result and closes exactly the connections among them, each once |
| Dialer.DialContext | handler.go:173-240 | the race runs over the interleaved order of the resolved addresses; what is dialed is a start of the resolver's list exactly if that list alternates so far |
| Outbound.DialContext | handler.go:162-240 | nothing is dialed unless the policy permits the destination, and then the first resolved address is dialed first, every dialed address passed, and the returned connection is to the winner's address |
| Outbound.DialedIsAllowed | handler.go:168-191 | reordering does not let an unchecked address in |
| Outbound.PreparePacketDestination | handler.go:366-372 | refused by the policy exactly if not permitted; else the first resolved address, or what the system's resolver makes of one that is not valid |
| Outbound.PreparedIsAllowedIff | uot.go:96-101 | for every answer of that resolver the packet's address is allowed: exactly if the first address is valid or the policy restricts none |
| Outbound.CachedPacketsObeyPolicy | uot.go:45-78 | through the cache too, packets go only to addresses that passed the policy |
| Accounting.ApplyInv | limits.go:5-59 | every atomic step keeps all three accounts, the registry and every value already loaded consistent |
| Accounting.AccountsBalance | session_registry.go:31-83 | in every interleaving each counter equals its holders and stays within its limit, registered sessions are at most active ones, and global holders hold a session share |
| Accounting.NothingLeaks | limits.go:21-59 | when all goroutines have ended, however they ended, the accounts are back at zero |
| Accounting.NobodyIsStuck | limits.go:5-59 | a goroutine that has not ended always has a next step |
| Accounting.FailedSwapMeansProgress | limits.go:9-18 | a compare-and-swap fails only because another goroutine changed the counter after the load |
| Accounting.ReleaseIsNeverSuppressed | session_registry.go:77-83 | the guard on a positive count never swallows the release of a share |
| Accounting.StepsAreAtomic | limits.go:5-59 | each step does to the sets of holders what one atomic bounded act does, or nothing |
| Accounting.RunsAreAtomic | limits.go:5-59 | retry loops and rollbacks, in every run, linearize to bounded sets of holders |
| Accounting.RefusalMeansFull | limits.go:5-59 | whatever step first leaves a session refused, a stream rolling back or denied, the account that refused was full, or the session gone, before that step |
| Accounting.FailedSwapLoadsAgain | limits.go:10-18 | a failed swap only sends its goroutine back to its load |
| Accounting.UndisturbedSession | limits.go:5-19 | without interference a session gets its slot exactly if there is room |
| Accounting.UndisturbedStream | limits.go:46-59 | without interference a stream gets the global slot exactly if there is room |
| Accounting.ServedSessionsTell | listener.go:351-362 | past its registration is exactly a session that was registered in the run; a refused one never was |
| Accounting.OpenStreamsTell | limits.go:28-44 | past its acquisition is exactly a stream that held all it needs in the run; a denied one never did |
| Limits.AcquireCounter | limits.go:46-59 | whatever others do before each load and before each swap: adds one to a value below the limit, or refuses at a value at the limit; each retry follows a change by others after the load |
| Limits.StreamLimits.AcquireStream | limits.go:28-37 | both shares are taken or neither |
| Limits.StreamLimits.ReleaseStream | limits.go:39-44 | the global share and then the session's are given back |
| Limits.SessionRegistry.RegisterSession | session_registry.go:31-39 | a session enters with a count of zero, no other entry changes |
| Limits.SessionRegistry.UpdateSessionUser | session_registry.go:41-49 | only a registered session's user changes, no count does |
| Limits.SessionRegistry.UnregisterSession | session_registry.go:51-55 | exactly that session leaves |
| Limits.SessionRegistry.ActiveSessionCount | session_registry.go:57-61 | counts the registered sessions |
| Limits.SessionRegistry.AcquireSessionStream | session_registry.go:63-75 | is the section the account machine takes as one step, and says whether there was room |
| Limits.SessionRegistry.ReleaseSessionStream | session_registry.go:77-83 | is the section the account machine takes as one step |
| Limits.SessionRegistry.CloseActiveSessions | session_registry.go:85-114 | every session registered at the snapshot is cancelled and closed, counts and registry stay |
| Limits.CloseAll | session_registry.go:101-113 | the closing loop depends on the snapshot alone and closes all of it |
| AcceptPipeline.SlotsKept | listener.go:59-108 | every step keeps the balance of probe slots |
| AcceptPipeline.FatesKept | listener.go:83-108 | every step keeps one fate for each settled connection and never changes a fate |
| AcceptPipeline.DeliveryKept | listener.go:43-51 | the caller who holds a connection is the one its fate names, and conversely |
| AcceptPipeline.StopKept | listener.go:142-158 | the terminal error is written before `done` closes, every failed caller has it, and once a stop began the base listener is closed or the loop past its accepts |
| AcceptPipeline.OneOwner | listener.go:43-108 | in every interleaving no connection has two owners, and it has one exactly when its worker is done with it |
| AcceptPipeline.FateIsFinal | listener.go:83-108 | an owner once given stays |
| AcceptPipeline.FateFollowsVerdict | listener.go:83-140 | a settled connection is served exactly if the verdict on it was AnyTLS, closed if it was refused or failed, and as a website delivered, or closed only once `done` is closed |
| AcceptPipeline.StopHasItsReason | listener.go:53-81 | the stop has the reason of its first cause, a Close or the base listener's last failure; the loop starts with the first Accept and returns only from a stopped listener |
| AcceptPipeline.LoopStopsOrLeaves | listener.go:70-76 | after a failure the loop stops the listener exactly if it is not stopped |
| AcceptPipeline.NothingIsRuledOut | listener.go:43-81 | every verdict, every accepted connection, failure, close and new caller is possible where the code allows it |
| AcceptPipeline.ProbeSlots | listener.go:59-84 | taken slots are the live workers and the loop past its send, at most the maximum, and no freeing receive can block |
| AcceptPipeline.StopReasonIsFinal | listener.go:142-149 | the first stop decides the reason for good |
| AcceptPipeline.SameTerminalError | listener.go:43-51 | every failing Accept returns the first stop's error |
| AcceptPipeline.StopReleasesEveryone | listener.go:53-108 | after the stop no worker, waiting caller or accept loop waits for another |
| AcceptPipeline.OnlyOffersWait | listener.go:83-108 | before the stop only a website nobody asks for waits, and asking is enough to deliver it |
| AcceptPipeline.EveryEventCosts | listener.go:53-108 | after the stop every event of workers, loop and waiting callers lowers one measure, which a new call of Accept raises by one |
| AcceptPipeline.StoppedRunsAreShort | listener.go:53-108 | whatever the schedule, a stopped pipeline makes no more steps than that measure and the new calls allow |
| AcceptPipeline.RestAfterStop | listener.go:53-108 | at rest after the stop every accepted connection has its one owner, all slots are free and no caller waits |
| AcceptPipeline.RestIsReached | listener.go:53-108 | from every stopped run the rest is reached without new calls |
| BufferedConn.PullKeepsReach | buffered_conn.go:22-37 | however a read is cut, what can be reached before the next error is the same |
| BufferedConn.ReadOnKeeps | buffered_conn.go:22-37 | moving bytes into the buffer loses none and hides no error |
| BufferedConn.Patience | buffered_conn.go:36 | a look gives up after a hundred reads in a row that bring nothing, and no sooner |
| BufferedConn.BufferedConn.Fill | buffered_conn.go:36 | filling the buffer in place keeps the unread stream and what a look can reach |
| BufferedConn.BufferedConn.ReaderPeek | buffered_conn.go:36 | a look consumes nothing, and gives exactly the reachable first bytes or the error in the way |
| BufferedConn.BufferedConn.Peek | buffered_conn.go:26-37 | the same with a deadline, which is off again afterwards; a refused deadline fails without touching the stream |
| BufferedConn.BufferedConn.BufferedBytes | buffered_conn.go:39-50 | gives all held bytes, never fails, and changes nothing |
| BufferedConn.BufferedConn.Read | buffered_conn.go:22-24 | bytes and errors still to come are told once each, in their order and under their names; what is read and what is left is what was unread; the end is reported only when nothing is left |
| BufferedConn.ReadToEnd | buffered_conn.go:22-24 | any read sizes, any errors in between: the reader gets everything unread, in order, and terminates |
| WebsiteConn.PrependConn.constructor | website_conn.go:15-25 | what will be read is the prefix and then the connection |
| WebsiteConn.PrependConn.Read | website_conn.go:27-29 | replay and hand-over to the connection lose and repeat no byte and no error and rename none |
| WebsiteConn.PrepareWebsiteConn | anytls.go:394-409 | the website will read exactly what was unread, and the preparation cannot fail |
| WebsiteConn.ReadWebsite | website_conn.go:27-29 | reading to the end gives the whole unread stream, in order |
| Users.NewPasswordHashDetector | detector.go:40-48 | the map the loop fills is the one the theorems are about |
| Users.LastUserWins | detector.go:40-48 | for any list, a hash is known exactly if a user has it, and the last such user decides |
| Users.ValidateUsers | anytls.go:334-352 | accepts exactly the lists with names and passwords present, names and hashes distinct; otherwise names the first check the first bad user fails |
| Users.AnyTLSUsers | anytls.go:370-382 | the service's list is the enabled users, unchanged and in order |
| Users.EnabledInOrder | anytls.go:370-382 | an increasing sequence of positions hits exactly the enabled users and gives the list entry by entry |
| Users.OnePick | anytls.go:370-382 | only that list can be so picked |
| Users.ReasonsGoWithDecisions | detector.go:52-66 | no reason with AnyTLS, a disabled user with Reject, too few bytes or an unknown hash with Fallback |
| Users.ServiceKnowsEnabled | anytls.go:370-382 | with distinct hashes the service knows a hash once if an enabled user has it, else not |
| Users.DetectorAgreesWithService | detector.go:52-66 | on a valid list the detector says AnyTLS exactly if one service user has the hash, Reject exactly if a disabled user has it |
| Users.UserOrderDoesNotMatter | detector.go:40-48 | a valid list in another order gives the same detector |
| Routing.StemDecides | listener.go:261-336 | a prefix settled on by its first bytes is the one that is tried |
| Routing.DispatchIsFlat | listener.go:261-336 | the nested dispatch hits exactly the 17 website prefixes and connections closed inside one settled on; it fails only below 24 bytes |
| Routing.LongStreams | listener.go:249-259 | with 32 bytes: website prefix or else exactly what the detector says |
| Routing.ShortStreams | listener.go:249-259 | with fewer: never AnyTLS, never Reject, and faultless exactly for a website |
| Routing.PrefixesAsBytes | listener.go:270-320 | the 17 prefixes byte by byte, among them the HTTP/2 preface of section 3.4 of RFC 9113 |
| Routing.WhoIsServed | listener.go:160-229 | each verdict exactly, for both settings: served if 32 bytes carry an enabled user's hash, there is no website prefix and a slot is free; website if it has a prefix, or with fallback on is nobody's; else refused; never a routing error |
| Routing.RejectIsFinal | listener.go:176-205 | a rejected connection is refused whatever else holds |
| Routing.FallbackGovernsFailuresOnly | listener.go:160-196 | the setting makes a difference exactly for streams that are neither a website nor a user's |
| Routing.MatchPrefix | listener.go:324-336 | the peek decides as the specification does on the reachable bytes, a local close included, and consumes nothing |
| Routing.MatchStem | listener.go:270-282 | the two-stage peek for a first byte with two candidates decides as the specification does and consumes nothing |
| Routing.ClassifyWebsiteFastPath | listener.go:261-322 | the sequence of peeks decides as the nested dispatch on the reachable bytes and consumes nothing |
| Routing.ClassifyBufferedConn | listener.go:249-259 | the whole classification depends on the reachable bytes and their error alone and consumes nothing |
| Routing.RouteBufferedConn | listener.go:160-229 | the verdict is the specified one and whoever gets the connection has the whole unread stream |
| Routing.ProbeThenRead | docs/technical-design.md:255-257 | zero byte loss: any cutting, any errors, any read sizes, probed and routed, the owner reads the original stream |
| IdleTimeout.NewIdleTimeoutConn | listener.go:408-419 | the connection is wrapped exactly if the timeout is positive |
| IdleTimeout.IdleTimeoutConn.constructor | listener.go:413-418 | the timer starts armed for one timeout from now |
| IdleTimeout.IdleTimeoutConn.AfterTransfer | listener.go:421-435 | only moved bytes count as traffic |
| IdleTimeout.IdleTimeoutConn.Touch | listener.go:449-456 | is the machine's step; a closed connection is left alone |
| IdleTimeout.IdleTimeoutConn.Close | listener.go:437-447 | is the machine's step; the wrapped connection is closed only the first time |
| IdleTimeout.IdleTimeoutConn.Expire | listener.go:458-473 | is the machine's step; closes the wrapped connection only if it marked it closed |
| IdleTimeout.ActivityIsTraffic | listener.go:449-456 | while the connection is open, `lastActivity` is the moment bytes last moved in the run |
| IdleTimeout.RunInv | listener.go:399-473 | all events, stale callbacks included, keep the timer and the count of closes consistent |
| IdleTimeout.TimerIsNeverLost | listener.go:449-473 | an open connection has its timer set for one timeout after the last traffic, or a callback pending |
| IdleTimeout.ExpiryIsDue | listener.go:458-473 | a callback, however stale, closes an open connection exactly if no bytes have moved for the timeout |
| IdleTimeout.ClosedOnce | listener.go:437-473 | Close and expiry together close the wrapped connection at most once |
| IdleTimeout.CloseCloses | listener.go:437-447 | after Close the connection is closed, its timer stopped, and the wrapped connection closed or about to be, once |
| IdleTimeout.ClosedForGood | listener.go:437-473 | a closed connection stays closed |
| IdleTimeout.TimerFiresWhenDue | listener.go:449-473 | an armed timer of an open connection can fire exactly once no bytes have moved for the timeout |
| IdleTimeout.TimeGoesOn | listener.go:399-473 | the clock is the sum of its ticks, and users, callbacks and clock are never held up |
| IdleTimeout.OverdueConnectionCloses | listener.go:458-473 | an idle connection can always be brought to its close by the timer alone |
| IdleTimeout.TrafficPutsExpiryOff | listener.go:449-473 | after traffic no callback closes the connection before a full timeout has passed |
| PacketRelay.SourcesAsked | uot.go:61-73 | every answer used was asked for by the packet it came with, not handed on from an earlier one |
| PacketRelay.FewDestinations | uot.go:61-73 | with room for all destinations a packet uses what its predecessor for the same destination used, or asks anew exactly if that has run out |
| PacketRelay.CacheStaysSmall | uot.go:68-70 | never more than 256 destinations are remembered, clears included |
| PacketRelay.ThirtySeconds | uot.go:62-71 | the next packet for a destination uses the answer up to 30 seconds after it came, later it asks anew |
| PacketRelay.TheNextOneClears | uot.go:68-70 | 256 destinations are remembered together, and the next one asked for makes all others forgotten |
| PacketRelay.RoomFor256 | uot.go:68-70 | after 256 destinations the first one's answer is still used |
| PacketRelay.NoRoomFor257 | uot.go:68-70 | after 257 the first one is asked for anew |
| PacketRelay.Resolve | uot.go:61-73 | the lookup gives the answer of the packet's source and leaves the cache holding what is to be remembered, within its bound |
| PacketRelay.ProxyUotToPacket | uot.go:45-78 | the loop over the cache, for every sequence of packets, writes and ends as its specification says, whose laws the other rows state |
| PacketRelay.EachPacketIsAnswered | uot.go:45-78 | one write per packet in order, each the packet's payload to the answer of its source, and the exit has its cause: no packet left, this packet's own answer failed, or its write did |
| PacketRelay.CacheIsInvisible | uot.go:45-78 | writes and exit are those of the loop without a cache exactly if no packet the loop comes to would have got another answer |
| PacketRelay.StableIsEnough | uot.go:45-78 | answers that change only after they have run out make no difference |
| PacketRelay.ChangedAnswerShows | uot.go:45-78 | an answer that changes within the time makes one, at an input |
| PacketRelay.WritesGoWhereAnswersPoint | uot.go:45-78 | what holds of every answer holds of every address written to |
| Handler.CloseOnce | handler.go:57-78 | however many calls came before, the slot is released once and the callback made once |
| Handler.CloseAllAction | relay.go:46-55 | the shutdown's actions happen in their order, each once, the slot's release through closeOnce |
| Handler.StepRelay | relay.go:43-72 | one step of any of the three goroutines keeps the shutdown in order, one inside at a time, and brings its goroutine nearer to its end |
| Handler.SomebodyCanStep | relay.go:43-72 | once the context or either copy ends the relay, the goroutines stand still only when all have exited and everything is closed |
| Handler.Relay | relay.go:43-72 | for every schedule: shut down completely, each thing once, if the context or a copy ends; untouched if nothing does |
| Handler.NewConnectionEx | handler.go:33-118 | on every path the callback runs once, the slot is released once if acquired and never otherwise, every connection is closed once and `done` at most once; only a relay that nothing ends keeps what it has |
| Handler.HandleUDPOverTCP | handler.go:120-160 | the same for UDP over TCP |
| Policy.ParseCIDRPrefixes | policy.go:40-50 | the prefixes are the parsed entries one by one, or the first entry that does not parse is named |
| Policy.CompileCIDRPolicies | policy.go:26-38 | succeeds exactly if all entries parse, and leaves no prefixes where no entries are |
| Policy.MatchesCIDRPolicy | policy.go:130-141 | a valid address, unmapped, lies in some prefix |
| Policy.IsPrivateDestination | policy.go:159-173 | an address of a private class or in the table |
| Policy.PrivateIsFlat | policy.go:159-173 | classes and table together are exactly thirteen address blocks |
| Policy.MappedAddressIsTheSame | policy.go:130-173 | an IPv4-mapped address has every verdict of the IPv4 address it carries |
| Net.UnmapCarries | policy.go:163 | ::ffff:0.0.0.0 to ::ffff:255.255.255.255 carry the IPv4 addresses in order |
| Net.UnmapLeaves | policy.go:163 | no other address is changed |
| Net.ContainsV4 | policy.go:130-141 | an IPv4 network of each length 0 to 32 is exactly the block of 2^(32 - length) addresses in which its base lies |
| Net.ContainsV6 | policy.go:130-141 | the same for lengths 0 to 128; an address with a zone is in no network |
| Net.SingleAndAllV4 | policy.go:130-141 | a /32 holds one address, a /0 all |
| Net.SingleAndAllV6 | policy.go:130-141 | a /128 holds one address, a /0 all |
| Net.FamilyIsByWidth | handler.go:255-264 | an IPv4-mapped address is dialed as IPv6 |
| Policy.ValidateNameAndPortPolicy | policy.go:84-101 | exactly the declarative rule for ports and names |
| Policy.RefusalIsExact | policy.go:107-124 | the passes refuse exactly if some address is not allowed |
| Policy.ValidateResolvedDestinationPolicy | policy.go:107-124 | accepts exactly if every address is allowed; a denied address outweighs all other reasons |
| Policy.ResolveDestination | handler.go:374-395 | an address stands for itself; a name for all its addresses, or for an error if there are none |
| Policy.ResolvedInOrder | handler.go:374-395 | the destinations are the resolver's addresses, all of them and in its order, with the port asked for |
| Policy.NoRulesPermitAll | policy.go:60-82 | without rules exactly the destinations with a port and an address, own or resolved, are permitted |
| Policy.ValidateDestination | policy.go:60-82 | succeeds exactly if the declarative predicate holds for port, name and every resolved address, in both branches |
| Policy.OrderDoesNotMatter | policy.go:107-124 | acceptance is about the set of resolved addresses |
| Policy.ReasonDependsOnMixture | policy.go:107-124 | the reason is the same for every order exactly if some address is denied or the refusals are not mixed |
| Policy.RefusalReasonDependsOnOrder | policy.go:107-124 | the mixture occurs, and the two orders are refused for different reasons |
| Policy.DenyingMoreAcceptsNoMore | policy.go:84-124 | adding deny entries never turns a refusal into acceptance |
| Policy.AllowingMoreRefusesNoMore | policy.go:84-124 | growing allow lists in use never turns acceptance into a refusal |
| Domains.MatchesDomainPolicy | policy.go:143-157 | some pattern matches, both sides lower-cased and without one trailing dot |
| Domains.NamesMatchByLabels | policy.go:143-157 | for pattern and name as written: case and one trailing dot make no difference, `.x` and `*.x` match exactly the names that end in the labels of `x` and have more, other patterns the name they spell |
| Domains.SpellingDoesNotMatter | policy.go:143-157 | the answer is the same for every spelling of name and patterns |
| Domains.CapitalsAndDotMatch | policy.go:143-157 | `example.com` matches `EXAMPLE.COM.`, and not with a second dot |
| Domains.WildcardsMatchByLabels | policy.go:143-157 | the same on names already normal, letter by letter |
| Domains.DottedSuffixIsLabelSuffix | policy.go:149-152 | ending in a dotted string is ending in its labels with more in front |

## Left out

- The `sing-anytls` service, the UDP-over-TCP framing and the TLS handshake: outside libraries. A failed handshake is one of the verdicts of `AcceptPipeline`, a malformed request one of the answers of `Handler`.
- SHA-256 is a parameter: the theorems of `Users` hold for every function from passwords to 32 bytes. The parser of CIDR entries and the resolver are parameters in the same way.
- Dials, listens, handshake reports, writes and policy answers have arbitrary outcomes, chosen before a run and quantified over in every theorem.
- Real time and scheduler fairness: the clock is discrete, timers and goroutines move at arbitrary moments, and bounds are on numbers of events. The 250 ms delay and the probe deadline are only the possibility of their events.
- Configuration files, defaults, outbounds, node links, logging and byte counters have no cross-function depth.
- The table of TLS states that `prepareWebsiteConn` fills and the request context reads.
- The direction from the packet socket to the tunnel (`uot.go:80-94`), a plain copy loop; in `Handler.Relay` it is one of the two copying goroutines.
- Accounting.AccountsBalance: limits are fixed and connection numbers are distinct, so the wrap of a 64-bit sequence is not modelled; counters are unbounded integers, which their limits keep small.
- Limits.StreamLimits.AcquireStream: states one call without interference; what interleaved calls do is `Accounting`, and the retry loop under interference is `Limits.AcquireCounter`.
- Limits.SessionRegistry.CloseActiveSessions: speaks of the sessions in its snapshot; a session registered afterwards is not closed by the source either.
- `AcceptPipeline` is a machine, not a class: its channels have no single-threaded form. A base listener that has been closed is taken to fail its `Accept`, as the contract of `net.Listener` has it.
- Routing.RouteBufferedConn: a routing error cannot arise, since the two preparations never fail; `AcceptPipeline` covers that path all the same.
- Routing.ProbeThenRead: the stream is a finite script of reads; an error that is not the end of the stream may occur anywhere, but nothing follows the end.
- WebsiteConn.PrepareWebsiteConn: the bytes survive, an error the buffered reader had in store and not reported does not; the connection reports its own next error.
- BufferedConn.BufferedConn.Peek: the bytes are given as a value; that the source's slice is overwritten by later reads is not modelled, and no caller keeps it beyond that.
- Outbound.DialContext: an address that is not valid is dialed as text; where that leads is up to the dialer and is not modelled.
- Routing.ClassifyWebsiteFastPath: a connection refuses all deadlines or none; one that is closed locally between two peeks shows in the script of its reads.
- Domains.MatchesDomainPolicy: lower-casing is that of ASCII letters; other letters stay as they are.
- Net: IPv6 zones are kept, since a zoned address lies in no prefix; the textual forms of addresses are not modelled.
