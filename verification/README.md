# iPShadowT: a verified model of the tunnel's core

iPShadowT is a tunnel client and server that hides its traffic inside ordinary-looking TLS. This
project models the parts of it whose correctness is a matter of reasoning rather than of sockets,
and proves what they promise for every input, every run and every interleaving.

| file | models | main results |
|---|---|---|
| `RealityHello.dfy`, `RealityHelloProofs.dfy` | REALITY's ClientHello reader | it inverts an RFC 8446 serializer, and acceptance of arbitrary bytes fixes their shape |
| `RealityAuth.dfy`, `RealityServer.dfy` | token, replay table, server decision | built tokens verify exactly within the clock window; when a replay is told fresh, in every run |
| `DirectPool.dfy` | the client's direct pool, all interleavings | no send on a closed channel, one owner per connection, shutdown completes, drained for ever, nothing leaks |
| `AdaptivePool.dfy` | the adaptive pool, all interleavings | the two counters and the channel conserve connections; no double close; exactly when MaxSize holds |
| `Failover.dfy`, `FailoverManager.dfy` | path table, selectors, recursive switch, recovery | success if and only if a usable path answers; invariants over every run |
| `Balancer.dfy` | weighted strategy | any full window is exactly fair from any counter |
| `RateLimit.dfy` | token bucket and its connection | bytes in any window stay within burst + rate * time; writes terminate and are charged |
| `SessionPool.dfy` | mux session pick | exact argmax set, balance over any number of picks |
| `Reconnect.dfy` | backoff and reconnect loop | delay bounds, one loop at a time, each wait the backoff delay of its failures |
| `FakeTcp.dfy`, `Aead.dfy` | message framing, encrypted frames | stream refinement, round trips with their exact limits |
| `Fragment.dfy`, `Obfuscate.dfy`, `SniSpoof.dfy`, `SniProofs.dfy` | the writers that reshape traffic | the byte stream is unchanged; replacing the server name is exactly renaming the hello |
| `DnsMessage.dfy` | DNS query builder and response parser | round trips for queries and responses; what happens to the names it misreads |
| `TlsHello.dfy`, `Vectors.dfy`, `ByteSeq.dfy`, `Streams.dfy` | shared ground | the RFC 8446 serializer, length-prefixed vectors, bytes, readers and writers |

How the world is modelled:

- A reader (`Streams.Source`) hands over its bytes in arbitrary nonempty chunks and fails only when
  none are left; a broken connection is one with fewer bytes. A writer (`Streams.Sink`) may fail
  after any prefix. Random sizes are arbitrary choices in the coded ranges.
- X25519, HMAC and the AEAD are records of arbitrary functions constrained only by their functional
  laws (`RealityAuth.Lawful`, `Aead.Lawful`).
- Concurrent code is a step system: one event per action the scheduler cannot split, and theorems
  quantify over all event sequences. An event that is not enabled leaves the state unchanged.
- The failover callback is an arbitrary boolean per path. Since a path is tried at most once per
  failover (`Failover.FailoverFaithful`), this covers every behaviour of the callback.
- Clocks are arbitrary nondecreasing numbers; floating point is `real`; Go's unbounded-enough
  integers are `int`, and the widths that matter (uint16 and uint32 fields, `payloadLen+TagSize`,
  32-bit seconds) are written out.

Results where the code is narrower than its comments:

- `Encrypt` accepts 65535 bytes but `Decrypt` returns them only up to 65519, because the slice bound
  is a uint16 sum (`Aead.RoundTripIff`, `Aead.FramesReadBack`).
- `checkPaths` keeps the last revived path, so it switches to the best one exactly when all revived
  better paths tie (`FailoverManager.SwitchesToBestIff`, with `SwitchSkipsBest` as the witness).
- The constant-rate loop ends exactly when there is nothing to send or the rate is at least 100
  (`Obfuscate.PacedLoopEndsIff`); `Obfuscator.Write` says what is out after any number of ticks.
- `MaxDelay` is exceeded on the first attempt exactly by an `InitialDelay` above it, which is not
  capped, and on later attempts exactly by upward jitter near the cap (`Reconnect.ExceedsMaxIff`,
  with `DefaultExceedsMax` as the witness).
- `MaxSize` of the adaptive pool is checked against what is already counted, and by Get alone. It is
  safe exactly while everything counted and everything that may still be counted fits
  (`AdaptivePool.WithinMaxIff`); a step gives that up exactly when a Get passes its check, or a
  warm-up or scale-up goroutine starts, with no room left (`AdaptivePool.RoomStep`). Both happen:
  `RacingGetsExceedMax`, and without any race `WarmUpExceedsMax`.
- A priority of MaxInt is never selected by the priority strategies. A failover succeeds exactly when
  a usable path the strategy sees answers (`Failover.FailoverSucceedsIff`, with `MaxIntNeverTried` as
  the witness); paths at MaxInt elsewhere in the table do not disturb this.
- The replay table forgets a token exactly when a cleanup runs later than the window after it was
  stored (`RealityServer.FreshAgainIff`). A token can then verify again only if it was stamped ahead
  of the clock (`AcceptedAgainOnlyIfAhead`), and such a token does (`AheadTokenAcceptedTwice`).
- The answer loop of the DNS parser handles a pointer only at the start of a name. A name of labels
  ending in a pointer, which section 4.1.4 of RFC 1035 allows, is always skipped too far
  (`DnsMessage.MixedNameMisread`).

## Model

| member | source | states |
|---|---|---|
| RealityHello.ParseKeyShareX25519 | internal/antidpi/reality_hello.go:102-122 | the loop finds the first 32-byte X25519 entry of a key_share body, stopping at a truncated entry, on any bytes |
| RealityHello.ScanExtensions | internal/antidpi/reality_hello.go:73-90 | the extension loop's key is the fold over all readable extensions, each usable key_share overwriting the last |
| RealityHello.ParseListsAt | internal/antidpi/reality_hello.go:51-99 | cipher, compression and extension lists by index equal the cut-by-cut parser, with the same error for each truncation |
| RealityHello.ParseClientHelloAuth | internal/antidpi/reality_hello.go:16-100 | the index-based parser equals the vector-by-vector parser on every byte string, errors included |
| RealityHello.WrapTlsHandshakeRecord | internal/antidpi/reality.go:267-276 | the filled array is the RFC 8446 section 5.1 handshake record of the message |
| RealityHello.ReadClientHelloRecord | internal/antidpi/reality.go:85-108 | succeeds exactly when a complete handshake record of 1..16384 bytes is there, and returns just those bytes; on failure the consumed prefix, zero-padded |
| RealityHelloProofs.SharesInvert | internal/antidpi/reality_hello.go:107-121 | on serialized key_share entries the scan returns the first usable X25519 key |
| RealityHelloProofs.ExtensionsInvert | internal/antidpi/reality_hello.go:73-90 | on serialized extensions the loop returns the first usable share of the last usable key_share |
| RealityHelloProofs.ParserInvertsSerializer | internal/antidpi/reality_hello.go:16-100 | for every valid ClientHello and any trailing bytes the parser returns what the hello says |
| RealityHelloProofs.AuthFieldsRecovered | internal/antidpi/reality_hello.go:16-122 | one key_share and a 32-byte session id come back exactly: that id and the first usable key |
| RealityHelloProofs.ReadAndParse | internal/antidpi/reality.go:85-115 | reading the wrapped hello off a connection in any chunks and parsing it yields the session id and key, consuming just the record |
| RealityHelloProofs.BlockDecomposes | internal/antidpi/reality_hello.go:73-90 | any extensions block is a list of well-formed extensions plus an unreadable rest, and the key depends on the list alone |
| RealityHelloProofs.AcceptedShape | internal/antidpi/reality_hello.go:16-100 | accepted bytes are a handshake record around a ClientHello with a 32-byte id, the lists, and extensions deciding the returned key |
| RealityAuth.UnhexHex | internal/antidpi/reality_hello.go:142-147 | hex decoding undoes hex encoding |
| RealityAuth.GeneratedIdNormalizes | internal/antidpi/reality.go:314-320 | a generated short id normalizes to the eight bytes it encodes |
| RealityAuth.UnhexMeans | internal/antidpi/reality_hello.go:142-147 | decoding succeeds exactly on an even number of hex characters, of either case, and yields the bytes they spell |
| RealityAuth.HexIdNormalizes | internal/antidpi/reality_hello.go:124-147 | a hex id stands for the bytes it spells, an odd one with a zero in front, cut or zero-padded to eight |
| RealityAuth.OtherIdNormalizes | internal/antidpi/reality_hello.go:124-147 | an id with any other character stands for its first eight characters, zero-padded |
| RealityAuth.TrimNullLoop | internal/antidpi/reality_auth.go:174-181 | the backward loop cuts after the last nonzero byte |
| RealityAuth.TrimInjective | internal/antidpi/reality_auth.go:174-181 | equal-length byte strings that trim alike are equal, so comparing trimmed ids compares ids |
| RealityAuth.BytesEqual | internal/antidpi/reality_hello.go:149-159 | the loop decides equality |
| RealityAuth.FirstAllowed | internal/antidpi/reality_auth.go:125-141 | the first nonempty allowed entry with the token's id bytes, or none exists |
| RealityAuth.VerifyAuthToken | internal/antidpi/reality_auth.go:85-161 | the loops compute the verdict and id that AcceptedIff and ReturnsFirst characterise, on every input |
| RealityAuth.SerializeAuthToken | internal/antidpi/reality_auth.go:164-171 | the filled 32-byte array carries mac, short id and padding at offsets 0, 16 and 28, and at 24 a big-endian number that reads back as the timestamp |
| RealityAuth.SerializedFields | internal/antidpi/reality_auth.go:106-110 | parsing the layout recovers mac, short id and timestamp |
| RealityAuth.BuiltTokenVerifies | internal/antidpi/reality_auth.go:39-161 | a token built for an allowed nonempty id verifies if and only if the 32-bit clocks are within the window, and returns an allowed id with the same bytes |
| RealityAuth.AcceptedIff | internal/antidpi/reality_auth.go:85-161 | acceptance of any bytes is equivalent to: lengths, clocks within the window (120 s by default), an allowed id, a shared secret, and the first 16 bytes being those of the HMAC over the context, the four stamp bytes and the id up to its last nonzero byte |
| RealityAuth.ReturnsFirst | internal/antidpi/reality_auth.go:125-141 | the id returned is the first nonempty allowed one whose normalized bytes are the token's |
| RealityAuth.BuiltSigns | internal/antidpi/reality_auth.go:39-83 | a built token carries the normalized id and the clock as 32-bit seconds, and its MAC is over the same context, stamp and id bytes |
| RealityAuth.SignedDiffer | internal/antidpi/reality_auth.go:144-153 | the signed messages of two tokens differ unless stamp and id agree |
| RealityAuth.RestampNeedsCollision | internal/antidpi/reality_auth.go:144-158 | two accepted tokens with one MAC and key but another stamp or id exhibit two messages with the same truncated HMAC |
| RealityAuth.PaddingIgnored | internal/antidpi/reality_auth.go:106-110 | tokens that differ only in the padding get the same verdict |
| RealityServer.ReplayProtection.Check | internal/antidpi/reality_auth.go:200-217 | refuses a stored token, stores a new one, cleans up past 10000 entries |
| RealityServer.ReplayProtection.Cleanup | internal/antidpi/reality_auth.go:220-227 | the deleting loop leaves exactly the entries not older than the window |
| RealityServer.HeldIff | internal/antidpi/reality_auth.go:200-227 | over any run, a token stored at call i, and not again, is still held at call j exactly when no cleanup in between ran later than the window after it was stored |
| RealityServer.FreshAgainIff | internal/antidpi/reality_auth.go:200-227 | a stored token is told fresh again exactly when such a cleanup lies in between |
| RealityServer.ReplaysFarApart | internal/antidpi/reality_auth.go:200-227 | in every serial run two accepting checks of one token are more than the window apart |
| RealityServer.NewIsFresh | internal/antidpi/reality_auth.go:200-217 | a token never offered before is fresh |
| RealityServer.Server.VerifyClientHello | internal/antidpi/reality.go:110-127 | parse, then replay table, then token; what is accepted and what the table becomes in each case |
| RealityServer.HonestHelloAccepted | internal/antidpi/reality.go:110-127 | a client's hello parses to its own id and key, its token passes exactly within two minutes, and it is fresh exactly if unseen |
| RealityServer.AcceptedAgainOnlyIfAhead | internal/antidpi/reality.go:110-127 | in every serial run a stored token can pass table and verification again only if its timestamp was not yet past when first stored |
| RealityServer.LateRunFreshTwice | internal/antidpi/reality_auth.go:200-227 | for every token, a serial run of 10002 checks whose first and last are both told fresh |
| RealityServer.AheadTokenAcceptedTwice | internal/antidpi/reality.go:110-127 | for any keys, in that run a token stamped 120 s ahead passes table and verification twice |
| DirectPool.InitDirectPool | internal/client/client.go:527-553 | the pool queues exactly the successful dials in order, open and with no goroutine; fails exactly if none succeeded; satisfies the invariant |
| DirectPool.PutInv | internal/client/client.go:591-603 | putDirectConn never sends on a closed channel and keeps capacity, ownership and the shutdown handshake |
| DirectPool.ReceiveInv | internal/client/client.go:579-588 | the select keeps capacity, ownership and the shutdown handshake |
| DirectPool.TakeDownInv | internal/client/client.go:624-633 | the critical section keeps them, letting at most one closer past the flag |
| DirectPool.DrainInv | internal/client/client.go:635-639 | a turn of the range loop keeps them |
| DirectPool.StepInv | internal/client/client.go:568-639 | every action of every goroutine keeps ownership, capacity and the shutdown handshake |
| DirectPool.SafeInEveryRun | internal/client/client.go:527-639 | in every interleaving: no thread is about to send on or close a closed channel, queue within 2*poolSize, every dialled connection in exactly one place |
| DirectPool.OwnershipIsFinal | internal/client/client.go:568-639 | a connection handed out or closed stays so and never returns to the channel |
| DirectPool.DrainedForEver | internal/client/client.go:624-639 | once the draining closer has returned the channel is empty for ever |
| DirectPool.NothingLeaks | internal/client/client.go:624-639 | drained and with no goroutine left, every connection is handed out or closed |
| DirectPool.GetTakesHead | internal/client/client.go:568-588 | a getter on an open nonempty pool: exactly the head of the queue is handed out and one refill of 1 started |
| DirectPool.GetDials | internal/client/client.go:568-588 | a getter on a taken-down or empty pool dials a connection of its own and changes nothing else |
| DirectPool.PutAppends | internal/client/client.go:591-603 | a put on an open pool with room appends exactly that connection |
| DirectPool.PutRefused | internal/client/client.go:591-622 | on a taken-down or full pool the refill closes what it dialled and ends |
| DirectPool.RefillFills | internal/client/client.go:606-622 | a refill of n on an open pool with room queues exactly n new connections and ends |
| DirectPool.ShutDownAlone | internal/client/client.go:624-639 | closeDirectPool by itself: flag and channel closed, channel drained, exactly the queued connections closed, the thread gone |
| DirectPool.CloserFinishes | internal/client/client.go:624-639 | in every interleaving, a closer past the flag drains the channel once it has had two turns per queued connection and two more |
| DirectPool.ShutDownCompletes | internal/client/client.go:624-639 | in every interleaving, once closeDirectPool has had its turns the pool is down, and drained unless another closer came first and is still at it |
| DirectPool.ClosersFinish | internal/client/client.go:527-639 | the same from the start, after any run |
| AdaptivePool.TouchedBooks | internal/pool/adaptive_pool.go:130-182 | a step that touches one connection changes the counted, busy and closed sets by that connection alone |
| AdaptivePool.AdvanceInv | internal/pool/adaptive_pool.go:94-251 | every action of Get, put, discard, warm-up and scale-down keeps the books |
| AdaptivePool.ReleaseInv | internal/pool/adaptive_pool.go:296-313 | Close and MarkBad release a live wrapper once and are no-ops afterwards |
| AdaptivePool.Conservation | internal/pool/adaptive_pool.go:94-313 | in every interleaving currentSize is idle + handed out + counted in transit, no thread is about to close a closed connection, idle is within maxSize |
| AdaptivePool.OneOwner | internal/pool/adaptive_pool.go:130-182 | each connection is in the channel once, with one live wrapper, with one thread, or gone and closed |
| AdaptivePool.QuiescentBooks | internal/pool/adaptive_pool.go:130-182 | with no thread under way currentSize = idle + activeConns |
| AdaptivePool.GetTakesIdle | internal/pool/adaptive_pool.go:131-138 | a Get with an idle connection: exactly the head of the queue comes back in a new live wrapper, counted active |
| AdaptivePool.GetDialsNew | internal/pool/adaptive_pool.go:140-151 | a Get on an empty channel below maxSize dials, counts and wraps exactly one new connection |
| AdaptivePool.GetWaits | internal/pool/adaptive_pool.go:153-160 | a Get on an empty channel at maxSize waits and changes nothing |
| AdaptivePool.CloseReturns | internal/pool/adaptive_pool.go:163-174 | Close on a live wrapper with room: the connection is last in the queue, no longer active |
| AdaptivePool.CloseOverflows | internal/pool/adaptive_pool.go:163-174 | with the channel full it is closed once and off both counters |
| AdaptivePool.MarkBadDiscards | internal/pool/adaptive_pool.go:177-182 | MarkBad on a live wrapper: the connection is closed once, gone, off both counters and never in the queue |
| AdaptivePool.WarmUpAdds | internal/pool/adaptive_pool.go:101-117 | a warm-up or scale-up goroutine adds exactly one idle counted connection when the channel has room |
| AdaptivePool.ShrinkRemoves | internal/pool/adaptive_pool.go:236-250 | a scale-down of k with as many idle closes exactly the k idle longest |
| AdaptivePool.GetKeepsMax | internal/pool/adaptive_pool.go:131-161 | a Get that nothing interrupts never takes currentSize past maxSize |
| AdaptivePool.RoomStep | internal/pool/adaptive_pool.go:94-251 | from a state with room (currentSize plus the threads about to count within maxSize) a step loses it exactly when a Get passes its check or a warm-up starts with none left |
| AdaptivePool.RoomThroughoutIff | internal/pool/adaptive_pool.go:94-313 | a run has room in every state exactly when no event of it overcommits |
| AdaptivePool.NoRoomOverflows | internal/pool/adaptive_pool.go:109-151 | from any state without room, letting the adding threads count takes currentSize past maxSize |
| AdaptivePool.WithinMaxIff | internal/pool/adaptive_pool.go:94-313 | a state has room if and only if no continuation without a further overcommitment takes currentSize past maxSize |
| AdaptivePool.DisciplinedRunsFit | internal/pool/adaptive_pool.go:94-313 | from the empty pool currentSize stays within maxSize in every run that never overcommits |
| AdaptivePool.WarmUpExceedsMax | internal/pool/adaptive_pool.go:109-116 | a warm-up of any full pool exceeds maxSize, with no Get and no race; so does warming a pool of size 1 twice |
| AdaptivePool.RacingGetsExceedMax | internal/pool/adaptive_pool.go:140-151 | a witness: two Gets that both pass the check before either counts exceed maxSize |
| AdaptivePool.ToRemove | internal/pool/adaptive_pool.go:206-238 | positive exactly at low usage above minSize; then half the excess, rounded up or one more, never aiming below minSize |
| AdaptivePool.ScaleDownKeepsMin | internal/pool/adaptive_pool.go:236-250 | an uninterrupted scale-down never takes currentSize below minSize |
| Failover.ByPriorityMeans | core/failover.go:275-292 | the pick is the first candidate of least priority below MaxInt, or there is none |
| Failover.ByLatencyMeans | core/failover.go:305-322 | the pick is the first candidate of least latency, or there is none |
| Failover.InTurnMeans | core/failover.go:294-303 | the pick is the candidate met first going round from the excluded path, or there is none |
| Failover.SelectSound | core/failover.go:262-273 | every strategy picks a usable other path it sees, and says none exactly when there is none (the priority strategies do not see MaxInt) |
| Failover.FailoverFaithful | core/failover.go:222-259 | for every callback: distinct tries, each failed one Unhealthy, other rows untouched, success at the first callback that succeeds |
| Failover.FailoverRows | core/failover.go:222-259 | every row written out: the failed and the vainly tried paths are Unhealthy with the time they were marked, all others untouched |
| Failover.FailoverExhaustive | core/failover.go:222-259 | it tries only usable paths the strategy sees, and gives up only after trying all of them |
| Failover.FailoverSucceedsIff | core/failover.go:222-259 | true if and only if the callback of some other usable path the strategy sees succeeds; false only with every path it sees Unhealthy or Disabled |
| Failover.FailoverSucceedsWhenAllSeen | core/failover.go:222-259 | with every path seen: true if and only if some other usable path's callback succeeds; false only with every path Unhealthy or Disabled |
| Failover.MaxIntNeverTried | core/failover.go:275-292 | a witness: a healthy path of priority MaxInt whose callback would succeed is not tried |
| Failover.PriorityClimbs | core/failover.go:222-292 | on the sorted table the priority strategy tries increasing indices and skips no usable path |
| Failover.PriorityPicksBest | core/failover.go:222-292 | the path that wins has the least priority number among those whose callback succeeds |
| FailoverManager.SortPathsByPriority | core/failover.go:123-131 | in place: sorted by priority and a permutation |
| FailoverManager.Manager.constructor | core/failover.go:97-120 | a priority-sorted permutation of the input, every row fresh and Healthy, active index 0, invariant established |
| FailoverManager.Manager.SelectByPriority | core/failover.go:275-292 | the loop computes the specified pick |
| FailoverManager.Manager.SelectByLatency | core/failover.go:305-322 | the loop computes the specified pick |
| FailoverManager.Manager.SelectRoundRobin | core/failover.go:294-303 | the loop computes the specified pick |
| FailoverManager.Manager.SelectNextPath | core/failover.go:262-273 | dispatch by strategy, unknown ones as priority |
| FailoverManager.Manager.DoFailover | core/failover.go:222-259 | the recursion terminates for every callback and makes the specified transition |
| FailoverManager.Manager.ReportFailure | core/failover.go:185-207 | below the threshold the active row counts one more failure and nothing else changes; true if and only if the threshold is reached and another Healthy or Degraded path below MaxInt (or under round-robin or latency) answers, and then such a path is active |
| FailoverManager.ReportsCount | core/failover.go:185-207 | any number of failures in a row below the threshold is counted exactly |
| FailoverManager.ThresholdSwitches | core/failover.go:185-259 | as many failures in a row as the path is short of the threshold leave another usable path active whenever one answers |
| FailoverManager.Manager.ReportSuccess | core/failover.go:210-219 | the active path is Healthy with a clean failure count and one more success; every other path and the active index are unchanged |
| FailoverManager.Manager.CheckPaths | core/failover.go:342-391 | revives exactly the paths Unhealthy for at least RecoverAfter, as Degraded with a clean count and the time; moves as CheckMovesToLast says |
| FailoverManager.CheckMovesToLast | core/failover.go:363-376 | under the priority strategy it moves to the last revived path better than the active one, if any, and otherwise stays |
| FailoverManager.Manager.ForceSwitch | core/failover.go:394-432 | the first path of that name becomes active; the error cases |
| FailoverManager.Manager.DisablePath | core/failover.go:435-445 | the first path of that name is Disabled, nothing else changes |
| FailoverManager.Manager.EnablePath | core/failover.go:448-460 | the first path of that name is Degraded with a clean count, nothing else changes |
| FailoverManager.ApplyKeeps | core/failover.go:185-219 | every operation keeps the sorted table, the range of the active index and the failure counts of usable paths |
| FailoverManager.RunKeeps | core/failover.go:185-460 | the same over every run of operations |
| FailoverManager.StaysDisabled | core/failover.go:434-460 | an inactive Disabled path stays so until EnablePath or ForceSwitch names it |
| FailoverManager.CheckNeverWorsens | core/failover.go:342-391 | checkPaths moves only to a path it revived, of strictly smaller priority number, and exactly when there is one |
| FailoverManager.SwitchesToBestIff | core/failover.go:363-376 | the switch reaches the best revived path exactly when all revived better paths tie |
| FailoverManager.SwitchSkipsBest | core/failover.go:363-376 | a witness: two failures from three healthy paths, then a check that revives both failed ones and takes the worse |
| Balancer.OwnerMeans | internal/loadbalancer/balancer.go:121-128 | a slot belongs to exactly one backend, so the fallback is unreachable |
| Balancer.ExactFairness | internal/loadbalancer/balancer.go:115-129 | any total-weight consecutive picks from any counter choose each backend exactly Weight times |
| Balancer.FairOverRounds | internal/loadbalancer/balancer.go:115-129 | the same over any number of rounds |
| Balancer.LoadBalancer.PickWeighted | internal/loadbalancer/balancer.go:115-129 | the two loops return the slot's owner for the old counter |
| Balancer.LoadBalancer.GetHealthy | internal/loadbalancer/balancer.go:156-164 | the healthy backends in order |
| Balancer.HealthyMeans | internal/loadbalancer/balancer.go:156-164 | exactly the healthy backends, each once, in the order of their positions |
| Balancer.LoadBalancer.GetBackend | internal/loadbalancer/balancer.go:71-129 | fails exactly without a healthy backend, divides by zero exactly when their weights are all zero, else the weighted pick; the counter advances in all but the first case |
| RateLimit.TakeMeans | internal/ratelimit/limiter.go:73-98 | the grant is the least of n and the whole part of min(max, tokens + rate * elapsed), and the bucket keeps the rest; tokens stay in [0, max]; a short grant leaves less than one token |
| RateLimit.Budget | internal/ratelimit/limiter.go:73-98 | over any run, granted + left is at most start + rate * elapsed |
| RateLimit.WindowBound | internal/ratelimit/limiter.go:60-98 | in any run, the calls inside [s, t] are granted at most burst + rate * (t - s) |
| RateLimit.Limiter.SetLimit | internal/ratelimit/limiter.go:40-58 | removes the limit, or installs a full bucket with the default burst |
| RateLimit.Limiter.Allow | internal/ratelimit/limiter.go:62-70 | an unlimited user gets n, a limited one the exact grant of TakeMeans, and only that bucket changes |
| RateLimit.RateLimitedConn.Write | internal/ratelimit/limiter.go:141-161 | terminates; without error p went out whole and in order and exactly |p| bytes were granted |
| RateLimit.RateLimitedConn.Read | internal/ratelimit/limiter.go:122-138 | exceeds its grants by at most one byte, and only when nothing was granted |
| FakeTcp.Conn.Write | internal/transport/faketcp.go:128-155 | a message goes out behind its length, high byte first; one over 65535 bytes sends nothing; after an error a part of the frame is out |
| FakeTcp.Conn.Read | internal/transport/faketcp.go:158-219 | succeeds exactly when data is buffered or a whole frame is there, as one step of the message reader; takes nothing off the stream or exactly one frame; otherwise an error that delivers nothing |
| FakeTcp.SendAll | internal/transport/faketcp.go:128-155 | error-free writes put exactly the frames on the wire |
| FakeTcp.ReadsPreserveStream | internal/transport/faketcp.go:158-201 | for any buffer sizes, the reads and what is pending make up what was sent |
| FakeTcp.ReadsComplete | internal/transport/faketcp.go:158-201 | enough reads with nonempty buffers deliver everything |
| FakeTcp.DeliveredIsPrefix | internal/transport/faketcp.go:158-201 | the reads are a prefix of the writes and none crosses a message boundary |
| FakeTcp.ReceiveAll | internal/transport/faketcp.go:158-219 | Reads on a connection with any sizes return a prefix of what was sent; with the whole stream there, exactly the message reading; with enough nonempty buffers, everything sent |
| Aead.DecryptEncrypt | internal/crypto/aead.go:60-120 | whatever trails it, a ciphertext of at most 65519 bytes decrypts to itself and a longer one always fails |
| Aead.RoundTripIff | internal/crypto/aead.go:60-120 | Encrypt accepts exactly up to 65535 bytes, and the round trip holds exactly up to 65519 |
| Aead.DecryptIff | internal/crypto/aead.go:93-120 | Decrypt yields p exactly if 18 sealed bytes after the 24-byte nonce open to a length of at most 65519 and that many bytes plus a tag behind them open to p |
| Aead.FrameLayout | internal/crypto/aead.go:58-90 | the frame byte by byte: 32-bit length, nonce, sealed 16-bit length, sealed plaintext |
| Aead.FrameRefused | internal/crypto/aead.go:173-193 | a length prefix above 65677, or more than is there, is refused; otherwise exactly that many bytes are decrypted |
| Aead.FrameReadsBack | internal/crypto/aead.go:173-211 | a written frame never trips the size cap and reads back exactly within that limit |
| Aead.FramesReadBack | internal/crypto/aead.go:173-211 | any sequence of frames reads back as the same plaintexts if and only if none exceeds 65519 bytes |
| Aead.WriteEncryptedFrame | internal/crypto/aead.go:196-211 | success appends the frame; failure leaves a prefix of it |
| Aead.EncryptedWrite | internal/crypto/aead.go:152-170 | success reports len(p) with the frame on the wire; an error reports 0 with a part of it out, and an oversized p sends nothing |
| Aead.ReadEncryptedFrame | internal/crypto/aead.go:173-193 | reads one frame off any stream as specified |
| Fragment.Fragmenter.RandomSize | internal/antidpi/fragment.go:167-179 | within [min, max] |
| Fragment.Fragmenter.RandomSplitPoint | internal/antidpi/fragment.go:141-164 | strictly inside any message of two bytes or more, in its first half |
| Fragment.Fragmenter.FragmentedWrite | internal/antidpi/fragment.go:62-100 | the stream is the data; non-final fragments lie in [min, max] |
| Fragment.Fragmenter.FragmentTlsClientHello | internal/antidpi/fragment.go:104-137 | the stream is the hello, split strictly inside it, later fragments sized |
| Fragment.FragmentedConn.Write | internal/antidpi/fragment.go:204-218 | transparent; only the first handshake write is fragmented |
| Fragment.SendAll | internal/antidpi/fragment.go:204-218 | any run of error-free writes is transparent |
| Obfuscate.PacedLoopEndsIff | internal/antidpi/obfuscation.go:266-287 | the constant-rate loop ends if and only if there is nothing to send or the rate is at least 100 |
| Obfuscate.Obfuscator.Write | internal/antidpi/obfuscation.go:105-125 | in every mode and at every rate the bytes sent are the reported prefix of p; without an error the Write is done after the given ticks exactly when a paced loop would be, and then p is out |
| Obfuscate.Obfuscator.WriteHttpsMimic | internal/antidpi/obfuscation.go:128-191 | the same for HTTPS mimicry, padding included, keeping the phase in 0..2 |
| Obfuscate.Obfuscator.WriteVideoMimic | internal/antidpi/obfuscation.go:194-227 | the same for video mimicry |
| Obfuscate.Obfuscator.WriteRandomBurst | internal/antidpi/obfuscation.go:230-255 | the same for random bursts |
| Obfuscate.Obfuscator.WriteConstantRate | internal/antidpi/obfuscation.go:258-290 | the same for constant rate; after k ticks exactly min(len, k * (rate / 100)) bytes are out, at every rate |
| Obfuscate.RandomRange | internal/antidpi/obfuscation.go:309-315 | min for an empty range, else in [min, max) |
| Obfuscate.SendAll | internal/antidpi/obfuscation.go:105-290 | any run of error-free writes that get through is transparent, and it gets through exactly when each write does |
| SniSpoof.Search | internal/antidpi/sni_spoof.go:241-253 | the offset found is in bounds and carries type 0 |
| SniSpoof.FindSniOffset | internal/antidpi/sni_spoof.go:197-254 | total and terminating on any bytes, equal to the specified search |
| SniSpoof.ReplaceSni | internal/antidpi/sni_spoof.go:257-316 | byte by byte: the located host field holds the new name, cut or padded with dots, and every other byte is unchanged |
| SniSpoof.SpoofConn.Write | internal/antidpi/sni_spoof.go:102-128 | only a first write that is a handshake record with a ClientHello is touched; what reaches the wire in each mode |
| SniSpoof.SpoofConn.WriteSplit | internal/antidpi/sni_spoof.go:132-161 | two segments cut before the SNI or at splitPos, the same stream |
| SniSpoof.SendAll | internal/antidpi/sni_spoof.go:102-161 | any run of error-free writes in a splitting mode is transparent |
| SniProofs.ReplacedKeeps | internal/antidpi/sni_spoof.go:257-316 | length kept, only the host field changed, a second search finds the same field |
| SniProofs.LastReplacementWins | internal/antidpi/sni_spoof.go:257-316 | a later replacement hides an earlier one |
| SniProofs.OffsetFound | internal/antidpi/sni_spoof.go:197-254 | on a ClientHello's record the offset is that of its first server_name extension |
| SniProofs.ReplaceIsRename | internal/antidpi/sni_spoof.go:257-316 | on a ClientHello's record the result is the record of the hello with that name exchanged |
| SniProofs.DisguiseKeepsAuth | internal/antidpi/sni_spoof.go:257-316 | the REALITY parser reads the same id and key from the disguised hello |
| DnsMessage.SplitHostname | internal/dns/resolver.go:301-318 | the loop yields the nonempty runs between dots |
| DnsMessage.SplitDotted | internal/dns/resolver.go:301-318 | splitting undoes joining labels with dots |
| DnsMessage.LabelsAreLabels | internal/dns/resolver.go:301-318 | every label is nonempty and free of dots |
| DnsMessage.BuildDnsQuery | internal/dns/resolver.go:182-210 | the fixed header with one question, the name, the type and class IN |
| DnsMessage.QueryCarriesName | internal/dns/resolver.go:182-210 | reading the name off the query yields the labels of the host name, for labels under 256 bytes |
| DnsMessage.ParseRecord | internal/dns/resolver.go:245-294 | one answer on any bytes, by its bytes: type, length, the IPv4 address in its 16-byte form or the IPv6 address, and the next offset |
| DnsMessage.ParseDnsResponse | internal/dns/resolver.go:213-298 | total and terminating on any bytes, equal to the specified parse |
| DnsMessage.QueryRoundTrip | internal/dns/resolver.go:182-240 | for labels under 192 bytes the question skip lands on the end of the query |
| DnsMessage.SkipsQuestionPointer | internal/dns/resolver.go:227-238 | a question name ending in a pointer is skipped exactly |
| DnsMessage.AnswersReadBack | internal/dns/resolver.go:243-297 | answers with pointer or uncompressed names read back as their addresses in order |
| DnsMessage.ResponseRoundTrip | internal/dns/resolver.go:213-298 | a response to a query parses to exactly its A and AAAA addresses, whatever sections follow |
| DnsMessage.MixedNameMisread | internal/dns/resolver.go:249-264 | a name of labels ending in a pointer is skipped at least 191 bytes too far; if the response ends before that, this answer and all later ones are dropped |
| SessionPool.Candidates | internal/mux/mux.go:174-195 | the ordered argmax set of the eligible sessions with a score of at least -2^30, empty exactly without one |
| SessionPool.Pool.GetStream | internal/mux/mux.go:161-204 | the pick maximises quality minus streams (or has the fewest streams without a quality function) among open sessions below the limit, equal ones in turn; no pick exactly if each is closed, full or below -2^30 |
| SessionPool.BestMeans | internal/mux/mux.go:174-195 | a best session is open, below the limit, and no other such session has a higher quality minus streams |
| SessionPool.BestIsLeastUsed | internal/mux/mux.go:174-195 | among sessions of equal quality the pick has the fewest streams |
| SessionPool.Pool.RemoveClosed | internal/mux/mux.go:207-224 | keeps the open sessions in order and reports how many went |
| SessionPool.OpenMeans | internal/mux/mux.go:207-224 | exactly the open sessions, each once, in the order of their positions |
| SessionPool.Pool.Count | internal/mux/mux.go:227-238 | the number of open sessions |
| SessionPool.EligibleIsVisible | internal/mux/mux.go:175-188 | up to 2^30 streams and with non-negative qualities every eligible session competes |
| SessionPool.PicksCounted | internal/mux/mux.go:201-203 | over any run of picks each session has exactly one stream more per pick of it |
| SessionPool.NeverPastMax | internal/mux/mux.go:161-204 | however many streams are opened, no session passes a positive MaxStreams |
| SessionPool.StaysBalanced | internal/mux/mux.go:161-204 | with equal qualities or none, stream counts stay within one of each other over any number of picks |
| Reconnect.DelayBounds | internal/stability/reconnect.go:150-171 | from the second attempt on the delay is within half the jitter of the capped backoff |
| Reconnect.DelayIs | internal/stability/reconnect.go:150-171 | the delay of every attempt: InitialDelay, then the step-by-step capped backoff, up, down and plain by half the jitter in turn |
| Reconnect.ExceedsMaxIff | internal/stability/reconnect.go:150-171 | for every attempt: the delay exceeds MaxDelay exactly by an InitialDelay above it on the first, and by upward jitter near the cap on later ones |
| Reconnect.DefaultExceedsMax | internal/stability/reconnect.go:50-59 | the default settings wait 33 s at attempt 11 |
| Reconnect.DelaysGrow | internal/stability/reconnect.go:150-171 | while uncapped, delays grow strictly whenever the factor outweighs the jitter |
| Reconnect.DefaultDelaysGrow | internal/stability/reconnect.go:50-59 | in particular with factor 2 and jitter 0.2 |
| Reconnect.AtMostOneLoop | internal/stability/reconnect.go:82-92 | however often it is triggered, one loop runs, exactly while the state says reconnecting |
| Reconnect.SwitchOnlyAfterFailures | internal/stability/reconnect.go:100-121 | the transport is switched only after MaxAttempts failed connects in the current loop |
| Reconnect.SwitchTriedIff | internal/stability/reconnect.go:107-121 | in every run the head of the loop enters switchFunc exactly when MaxAttempts connects have failed, and otherwise waits |
| Reconnect.SwitchIsTried | internal/stability/reconnect.go:82-140 | a triggered loop whose connects all fail enters switchFunc after exactly MaxAttempts of them |
| Reconnect.SuccessEndsLoop | internal/stability/reconnect.go:113-146 | a switch or connect that succeeds ends the loop idle with the counter at 0 |
| Reconnect.FailureGoesOn | internal/stability/reconnect.go:114-139 | a failed switch goes on to the wait of its attempt, a failed connect goes round with one more failure |
| Reconnect.WaitsBackOffInOrder | internal/stability/reconnect.go:107-132 | in every run, the wait after n failed connects of a loop is the backoff delay n + 1 |
| Reconnect.WaitsGrow | internal/stability/reconnect.go:107-171 | in every run, the wait after one more failed connect is strictly longer while the backoff is uncapped and the factor outweighs the jitter |

## Left out

- Sockets, TLS, uTLS, QUIC, WebSocket, HTTP/2, gRPC and smux themselves: foreign code behind an abstract reader, writer, channel or session.
- Strength of X25519, HMAC and XChaCha20-Poly1305: only their functional laws are used.
- BuildAuthToken's key generation and random padding: the ephemeral key, clock and padding are parameters of `RealityAuth.Build`.
- REALITY's fallback proxy and the uTLS handshake that produces the ClientHello: I/O; the hello is any RFC 8446 ClientHello.
- Concurrent failover operations: each public operation is one atomic transition, so a report that slips in between ReportFailure's unlock and doFailover's lock is not modelled; nor is a callback that itself changes the path table. LastError is not recorded.
- AdaptivePool.Conservation: covers the pool before Close, with each pooledConn used by one thread at a time; scale-up goroutines may start at any time and in any number, which is more than adjustSize allows.
- DirectPool.DrainedForEver: speaks of the closer that set directClosed; a second closer returns at once, possibly before the drain.
- Balancer.LoadBalancer.GetBackend: the weighted strategy only, for weights that are not negative and a counter that does not overflow; round-robin, least-connections, fastest and IP-hash would only add easy members.
- RateLimit.RateLimitedConn.Write: one connection per bucket; several connections of one user could starve each other, which the termination argument does not cover.
- DnsMessage.SplitHostname: works on bytes, which agrees with Go's rune loop on every valid UTF-8 string; invalid UTF-8, which Go replaces, is not modelled. Resolver caching and HTTP are I/O.
- FakeTcp.Conn.Read: the byte counters of Stats are not modelled.
- SessionPool.StaysBalanced: for all sessions open and equal qualities; with unequal ones only the argmax property is stated.
- Reconnect.DelayBounds: in real nanoseconds, before the truncation to whole nanoseconds. Reset from outside during a loop is not modelled.
- Obfuscate.Obfuscator.Write: delays and the sizes' distribution are not modelled; how many turns of the ticker go by is a parameter, so a loop that never ends is one that is not done after any number of them.
- Double-mode and replace-mode SNI spoofing are not transparent by design; the contracts say what reaches the wire instead.
- KCP (its retransmission is a stub), the traffic shaper (its padding is never removed), half-duplex, domain fronting, ECH, ShadowTLS, multipath: no receiving counterpart or no property beyond I/O.
- Configuration, metrics, health, panel, API, CLI, cluster, plugins, TUN/TAP, deployment: tables and I/O.
