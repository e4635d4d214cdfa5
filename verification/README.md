# dnslb: from agent reports to DNS answers

dnslb turns the health reports of a set of agents into the A records of DNS zones. This project models
that control loop in Dafny and proves what it guarantees: which endpoints a majority vote publishes, how a
published list reaches the reconciler across two goroutines, what the reconciler writes to the DNS
provider over whole runs with failing calls, and the encodings that the hashes and string keys rest on.

`dafny verify dfyconfig.toml` checks everything.

| file | what it holds |
|---|---|
| `Wrappers.dfy`, `Strings.dfy` | result types, and the parts of Go's `strings` and `strconv` that the program uses |
| `Net.dfy` | endpoints: printer, parser, the exact round-trip condition |
| `LoadbalancerLists.dfy` | the byte stream under the list hash |
| `Decodability.dfy` | exactly when that stream determines the list |
| `Matching.dfy` | longest match of a loadbalancer among the zones, buckets, record names |
| `Zones.dfy` | DNS zones and the rebuild of one zone |
| `Reconciler.dfy` | one tick of the DNS controller as a function of its state and the provider's answers |
| `Runs.dfy` | safety over all runs: caches, retries, foreign zones |
| `Convergence.dfy` | what ticks do upstream: convergence, repair, quiescence |
| `StaleRebuild.dfy` | what happens to a list whose forced fetch fails |
| `Queries.dfy` | the answers that no loadbalancer claims, which never change |
| `DnsController.dfy` | the controller class and its loops, proved against `Reconciler` |
| `HandOff.dfy` | the two goroutines and the lock as an interleaved step relation |
| `Tally.dfy`, `Monitors.dfy` | the majority vote, the repair of the `monitors` key |
| `EtcdController.dfy` | the etcd controller class and its loops, proved against `Tally` and `Monitors` |
| `EndToEnd.dfy` | from a tallied list to DNS answers |
| `Pipeline.dfy` | the two goroutines joined with the reconciler: from delivery to DNS answers |

## How it is modelled

- **Two layers.** The controllers are classes with the source's fields and loops. Each method's contract
  ties the new state to a function of the old one (`Reconciler.RunTick`, `Tally.Published`,
  `Monitors.SyncMonitors`), and the theorems about runs are lemmas about those functions.
- **Providers.** In the classes a call to the provider or to etcd fails nondeterministically, and a ghost
  record says which calls failed; the contracts leave no other reason for an operation to fail. In the state
  machine the answers of a tick are inputs. `Runs` quantifies over all of them, so it covers every pattern of
  failures and of writes by others, also in the middle of a sync, and also calls that report failure but
  took effect. `Convergence` adds that the answers were read from the zones upstream and that a failed
  UpdateZone changes nothing.
- **Hashes** are parameters. Where collisions matter, the premise (`NoCollision`) speaks only about the
  values compared in the state at hand. A promotion needs it only for single zones of one name
  (`ZonesDoNotCollide`); quiescence and the foreign-zone theorems need none.
- **Library contracts.** `sort.Slice` yields some sorted rearrangement. `Zones.Copy` is deep.
  `RemoveRecordsWithName` is a stable filter on name and type. `GetZone(n)` returns a zone named `n`.
- **Strings.** A Go string is a byte sequence, and a `char` stands for one byte. `byte`, `uint16`, `uint64`
  and the conversions `uint16(port)` and `int64(time)` have their widths.
- **Addresses** are nil or IPv4. The 4-byte and the IPv4-mapped 16-byte form of an address are one value,
  as they print alike. Octets with leading zeros are accepted, as Go 1.12 (the version in go.mod) does.
- **Time** is an integer. A controller that never fetched is always due to fetch. The age of a report is
  computed as Go does, with int64 overflow of the timestamp and a saturating duration.

## Where the code does less than it seems to promise

Each of these is a lemma, and another one gives the exact condition under which the code does what is expected.

- A list whose forced fetch fails may never be published. The next tick is not forced and may rebuild from
  the zones cached for the previous list. After that neither retries nor refetches add the missing zones
  until another list is promoted (`StaleRebuild.LostLoadbalancer`,
  `StaleRebuild.FailedForcedFetchLosesZones`). If the tick that rebuilds has no failed write, every zone
  that matches upstream holds its rebuild, at once and until the next promotion, exactly when that tick
  fetched or the old cache suffices (`StaleRebuild.PendingPublishedIff`). In a world without outside writes
  and with unique longest matches the cache suffices exactly when no selected zone outside it needs a change
  (`StaleRebuild.CacheSufficesIff`). Zones left over from the previous list are then written on every tick
  that fetches, equal or not, until the next promotion (`StaleRebuild.LeftOversAreRewritten`). A list rebuilt
  from the old cache becomes quiet exactly when every zone cached for the previous list is still selected
  (`StaleRebuild.RebuiltFromCacheIsQuietIff`).
- A controller that never rebuilt takes a list with hash 0 for rebuilt. If its forced fetch fails, the next
  fetch rebuilds for it exactly when its hash is not 0 (`StaleRebuild.ZeroHashIsNotRebuilt`).
- Equal hashes of the whole lists of zones hide a change from a sync that is not forced, and a zone whose hash
  is 0 counts as written while it is not cached; `Runs.AttemptedIff` says exactly what is written.
- Zones are matched by `strings.Contains`. A record is served under the loadbalancer's own name exactly when
  that name is the zone's or lies properly below it (`Matching.ServedUnderOwnName`); any other contained name
  gets the zone's name appended (`Matching.ServedName`). The names `.zone` and `zone` share a record name
  (`Matching.RecordNameInjective`).
- Zone names of equal length are sorted in any order. The assignment is independent of it exactly when each
  loadbalancer has a unique longest match (`Matching.TiesMatterIffNotUnique`).
- A delivery equal to the current list is dropped even while a different candidate is pending
  (`HandOff.EqualDeliveryLosesToStaleCandidate`). The last delivery loses to the next tick in exactly this
  case (`HandOff.LastDeliveryWinsIff`) and wins after one more (`HandOff.FairTicksConverge`).
- Repeated entries in one report are each counted (`Tally.RepeatedEntriesOutvote`). The vote is a vote of
  agents, whatever other agents report, exactly when no fresh report repeats a healthy entry
  (`Tally.MajorityIffOneVoteEach`).
- A report dated in the future is trusted, unless it is dated so far ahead that Go's clock overflows
  (`Tally.FreshIffRecent`).
- The endpoint parser wraps ports to 16 bits and turns malformed addresses into nil without an error
  (`Net.ParserIsLenient` gives its result for every text).
- The repair of the `monitors` key skips a wrong value exactly when it collides with the wanted one after a
  successful Set, or hashes to 0 before the first (`Monitors.SkipsWrongValueIffCollision`).
- The list hash ignores protocols, and a name can spell an endpoint (`Decodability.NamesCanSpellEndpoints`).
  The lists over a set of names and addresses have streams of their own exactly when two ways of reading the
  same bytes never come out even (`Decodability.UnambiguousIffDecodable`). What is left over between two
  readings is always the end of a written name or address, so a finite set decides it
  (`Decodability.DecodableIffCertified`).

## Model

| member | source | states |
|---|---|---|
| Net.ListRoundTrip | net.go:22-91 | print, join with ",", parse gives the list back if and only if it is non-empty and no protocol holds "," or "://" |
| Net.SchemeSplits | net.go:61-67 | "://" never overlaps itself across the protocol boundary: the split gives protocol and rest, or more than two parts if the protocol holds "://" |
| Net.PrintedParts | net.go:22-24 | one printed endpoint parses back, or is an error, exactly by its protocol |
| Net.KeyRoundTrip | net.go:31-91 | "ip:port" parses to the same address and the port modulo 65536, for every port the runtime can hold |
| Net.ParserIsLenient | net.go:75-91 | the exact result for every text: an error without exactly one colon or with a port that Atoi does not read, otherwise the port modulo 65536 and nil for a malformed address |
| Net.EndpointReads | net.go:75-91 | which texts the endpoint parser accepts and what it returns, by their characters: one colon, octets and port with or without leading zeros, a sign before the port, all within range |
| Net.EndpointProtocolReads | net.go:61-73 | a text is read exactly if it holds "://" once and the rest is an endpoint; what is before it is the protocol |
| Net.ListReads | net.go:44-58 | a list is read piece by piece in order, and not at all if one piece is not read |
| Net.AddressReads | net.go:84 | a text is read as an address exactly if it is its four octets, behind zeros if any, with dots between |
| Net.DottedQuad | net.go:31-33 | the printed address parses back to the address |
| Net.PrintedAddressIff | net.go:31-33 | the printed address is the one text that reads as the address without leading zeros |
| Net.PrintedEndpointIff | net.go:31-33 | the printed endpoint is the printed address, a colon and the port without leading zeros, and no other text is |
| Net.PrintedWithProtocol | net.go:22-24 | protocol, "://" and endpoint follow each other |
| Net.KeyStringInjective | etcdController.go:143 | two (IP, port) pairs have the same string key if and only if they are equal |
| Net.TryParseEndpointProtocols | net.go:44-58 | the loop returns the parses of all pieces in order, or an error if one fails |
| Strings.SplitAppend | net.go:45-62 | splitting distributes over a separator that cannot overlap itself |
| Strings.JoinOfSplit | net.go:45-76 | joining undoes splitting |
| Strings.PiecesAreClean | net.go:45-76 | no piece of a split text holds the separator |
| Strings.AtoiOfItoa | net.go:85-88 | decimal printing and Atoi are inverse on the int64 range |
| Strings.PrintedIntegerIff | net.go:31-33 | the printed integer is the one text of digits without a leading zero that has the value, behind a minus if negative |
| Strings.AtoiReads | net.go:85-88 | Atoi reads exactly a sign if any, zeros if any, and a printed number in the int64 range |
| LoadbalancerLists.CalculateHash | loadbalancer.go:46-61 | the nested hasher writes feed exactly the stream Encode |
| LoadbalancerLists.EndpointLayout | loadbalancer.go:53-57 | an endpoint is written as its octets in order and its port, low byte first |
| LoadbalancerLists.EndpointsAppend | loadbalancer.go:52-58 | the endpoints follow each other in order |
| LoadbalancerLists.EncodeAppend | loadbalancer.go:49-59 | the streams of the loadbalancers follow each other in list order |
| LoadbalancerLists.EncodeOne | loadbalancer.go:49-52 | a loadbalancer's stream is its name and then its endpoints |
| LoadbalancerLists.NewLoadbalancerList | loadbalancer.go:21-26 | the new list carries the digest of its stream |
| Decodability.UnambiguousIffDecodable | loadbalancer.go:46-61 | no two lists over a set of names and addresses that differ beyond protocols have the same stream, if and only if the set is decodable: nothing is written as the empty text and no two different readings of the same bytes end together |
| Decodability.DecodableIffCertified | loadbalancer.go:46-61 | decodability is decided by a finite set of suffixes of written names and addresses |
| Decodability.EncodeUniquelyDecodable | loadbalancer.go:46-61 | over decodable names and addresses the streams are equal if and only if the names and (IP, port) sequences are |
| Decodability.PrefixCodeIsDecodable | loadbalancer.go:46-61 | names and addresses of which none is written as a prefix of another are decodable |
| Decodability.SeparatedIsDecodable | loadbalancer.go:46-61 | non-empty prefix-free names, IPv4 addresses and no name starting with the first octet of an address are decodable |
| Decodability.NamesCanSpellEndpoints | loadbalancer.go:46-61 | a family of different lists with equal streams |
| Decodability.SpelledNamesAreAmbiguous | loadbalancer.go:46-61 | a name that spells an address of the set, or an empty one, makes the set ambiguous |
| Matching.FirstMatchIsLongest | dnsController.go:68-83 | on the sorted names the first contained one is a longest contained one |
| Matching.FirstMatchIsListed | dnsController.go:76-83 | the match is listed and contained, and there is none only if no listed name is contained |
| Matching.BucketPartition | dnsController.go:117-126 | a loadbalancer occurs in the bucket of its match as often as in the list, and in no other bucket |
| Matching.BucketAppend | dnsController.go:117-126 | buckets keep list order |
| Matching.SelectedIffBucket | dnsController.go:76-129 | a zone is selected for fetching if and only if the mapping gives it a loadbalancer |
| Matching.TiesMatterIffNotUnique | dnsController.go:70-72 | the unstable sort changes no assignment if and only if every loadbalancer has a unique longest match |
| Matching.NearestAncestor | dnsController.go:68-83 | for label-aligned names the chosen zone lies below every other listed ancestor |
| Matching.RecordNameInjective | dnsController.go:153-156 | record names tell aligned names apart, except for the pair ".zone" and "zone" |
| Matching.ServedUnderOwnName | dnsController.go:78-156 | the record is served under the loadbalancer's own name if and only if that name is the zone's or properly below it |
| Matching.ServedName | dnsController.go:144-156 | the name every record is served under: the loadbalancer's own at or properly below the zone, the zone's for the dotted zone, and for any other contained name the own name with the zone's behind it |
| Matching.ApexNames | dnsController.go:144-156 | a loadbalancer takes the apex if and only if its name is the zone's, the dotted zone's or empty |
| Zones.RebuildServes | dnsController.go:142-170 | a rebuilt zone answers A queries under claimed names with all endpoints sharing the name, in order, and every other query as before |
| Zones.RebuildContents | dnsController.go:142-170 | the rebuilt records are the unclaimed old ones and one full record (class, TTL 60, type, address) for each endpoint, and no others |
| Zones.KeptComeFirst | dnsController.go:142-150 | the rebuilt records start with the unclaimed old ones, in their old order |
| Zones.AddedComeLast | dnsController.go:152-170 | one record for each endpoint follows them, loadbalancer by loadbalancer in list order, and nothing else |
| Zones.ApexAnswers | dnsController.go:142-170 | the apex answers A queries as before unless a loadbalancer bears the zone's name, its dotted form or none |
| Zones.RemoveIsForeign | dnsController.go:143-149 | removing names one after the other is one stable filter on all of them |
| Zones.RebuildIdempotent | dnsController.go:131-178 | rebuilding a rebuilt zone changes nothing, record order included |
| Reconciler.TickKeepsCached | dnsController.go:55-285 | every tick keeps the cached hashes equal to those of the cached zones, and a tick whose fetch fails changes no cache field |
| Reconciler.AttemptsAreMissing | dnsController.go:251-284 | the whole-state gate and the per-zone gates together let through exactly the wanted zones that differ from the cached copies |
| Runs.RunKeepsCached | dnsController.go:89-109 | the cache invariant holds in every reachable state, whatever the provider answers |
| Runs.RetryInvariant | dnsController.go:231-284 | in every reachable state each wanted zone equals its cached copy or both gates are open for it |
| Runs.AttemptedIff | dnsController.go:251-263 | what both gates let through in any state, collisions included, in terms of the hashes of the zones |
| Runs.RefetchesIffWritten | dnsController.go:213-279 | after a tick that works, the next one refetches within the interval if and only if a write succeeded |
| Runs.FailedWriteIsRetried | dnsController.go:231-284 | a zone whose write failed stays wanted through any failures and outside writes until the next promotion, and the next working tick, however late, writes it if and only if the copy it works with still differs |
| Runs.WantedIsFrozen | dnsController.go:231-249 | until the next promotion the wanted zones stay, and only they are written |
| Runs.UnwrittenIsUntouched | dnsController.go:258-284 | a zone that a run does not write holds what others made it |
| Runs.FailedFetchesChangeNothing | dnsController.go:214-228 | any number of failing fetches leaves the whole state as it was |
| Runs.WritesAreSelected | dnsController.go:74-98 | over every run UpdateZone is called only for zones that a fetch selected for a loadbalancer |
| Runs.ForeignZonesUntouched | dnsController.go:74-265 | a zone that no promoted list matches is never written and holds what others made it, over every run |
| Queries.UnclaimedAnswersStay | dnsController.go:131-285 | over every run without outside writes, failures included, a query that no promoted list claims keeps its answer, in zones that are written as well |
| Convergence.RunKeepsSound | dnsController.go:208-285 | without outside writes, over every run with failures, the cached hashes and zones are those upstream unless a refetch is due, the cached listing is that of upstream, and no zone appears or disappears |
| Convergence.WritesWhatDiffers | dnsController.go:251-284 | a tick that sees the zones as they are writes exactly the wanted zones that differ upstream or were not fetched |
| Convergence.EveryRunWritesWhatDiffers | dnsController.go:208-285 | the same for every run without outside writes: nothing that differs is forgotten, nothing that agrees is rewritten |
| Convergence.TickEstablishesWanted | dnsController.go:258-284 | after it, if no write fails, every wanted zone is upstream and every other zone untouched |
| Convergence.PromotionConverges | dnsController.go:208-285 | after a failure-free promotion each selected zone holds the rebuild of its former contents and every other zone is untouched |
| Convergence.FailuresOnlyDelay | dnsController.go:208-285 | the same holds if the promotion's writes and any number of later fetches and writes fail, after the first later tick that works and whose writes succeed |
| Convergence.DelayedPromotionSettles | dnsController.go:208-285 | and that tick settles the world, so nothing is written for the list afterwards |
| Convergence.GoodTickSettles | dnsController.go:251-284 | once rebuilt for a list, one working tick without a failed write settles the world |
| Convergence.PromotionWritesIffRebuildChanges | dnsController.go:231-284 | a promotion writes a zone if and only if the zone is selected and the rebuild for the listing it got changes it |
| Convergence.FetchAgreesWithMatching | dnsController.go:76-139 | in a forced sync the fetched zones are exactly those with a loadbalancer, and no matched loadbalancer's zone is missing |
| Convergence.RefetchRepairs | dnsController.go:211-229 | whatever others did, a failure-free tick after the interval restores every wanted zone to the snapshot |
| Convergence.PromotionSettles | dnsController.go:208-285 | a failure-free promotion reaches a settled world |
| Convergence.SettledForever | dnsController.go:208-285 | from there no tick for the same list ever writes, in runs of any length and mix of forced, interval and plain ticks, failed fetches included |
| Convergence.PlainTicksAreSilent | dnsController.go:213-256 | once refetched, plain ticks within the interval neither fetch nor write nor change the state |
| StaleRebuild.PendingPublishedIff | dnsController.go:213-285 | a pending list's matching zones upstream hold their rebuild, from its next working tick without failed writes until the next promotion, if and only if that tick fetched or the old cache suffices |
| StaleRebuild.CacheSufficesIff | dnsController.go:68-98 | without outside writes and with unique longest matches the old cache suffices if and only if no selected zone outside it needs a change |
| StaleRebuild.WantedStaysUpstream | dnsController.go:231-284 | once upstream, the wanted zones stay there until the next promotion, whatever fails |
| StaleRebuild.UnselectedIsRewritten | dnsController.go:259-279 | a wanted zone that the fetch no longer selects is written on every such tick, equal or not |
| StaleRebuild.LeftOversAreRewritten | dnsController.go:231-284 | until the next promotion, whatever fails, each tick that fetches writes exactly the wanted zones that are no longer selected |
| StaleRebuild.QuietIffAllSelected | dnsController.go:231-284 | a run that ends with a fetch writes nothing if and only if every wanted zone is still selected |
| StaleRebuild.RebuiltFromCacheIsQuietIff | dnsController.go:213-284 | a list rebuilt from the old cache becomes quiet if and only if every zone of that cache is selected for it |
| StaleRebuild.FailedForcedFetchLosesZones | dnsController.go:215-249 | after a failed forced fetch and a tick not due to fetch, zones outside the old cache are never written for the list |
| StaleRebuild.ZeroHashIsNotRebuilt | dnsController.go:213-249 | at the start, a list whose forced fetch fails is rebuilt for after the next fetch if and only if its hash is not 0 |
| StaleRebuild.LostLoadbalancer | dnsController.go:208-285 | a run of three honest ticks from the start that ends so |
| DnsController.SortByLengthDesc | dnsController.go:70-72 | a rearrangement of the names in descending length |
| DnsController.DNSController.UpdateCurrentZones | dnsController.go:55-112 | stores exactly the fetch it got, read from upstream, or changes nothing, and fails if and only if a read of the provider failed or no list is current |
| DnsController.DNSController.MapLBsToZones | dnsController.go:114-129 | the map has the selected zones as keys and their buckets as values |
| DnsController.DNSController.UpdateWantedZones | dnsController.go:131-178 | the removal and addition loops produce the rebuilt zones, and the two hashes |
| DnsController.DNSController.RebuildInPlace | dnsController.go:142-170 | removal loop then addition loop equal the rebuild of the zone |
| DnsController.DNSController.Sync | dnsController.go:208-285 | new state, UpdateZone calls with their outcomes and upstream zones are those of the state machine for the answers it got, and it stops early if and only if a read failed |
| DnsController.DNSController.WriteChanged | dnsController.go:258-284 | the write loop calls UpdateZone for the changed zones in order and sets the enforce flag if one succeeds |
| DnsController.DNSController.RunOnce | dnsController.go:307-336 | the tick body takes the candidate and makes the step of the state machine, with the outcomes of its UpdateZone calls; it works if and only if a list is current and no read of the provider failed |
| DnsController.SucceededIff | dnsController.go:264-279 | no write of a tick fails if and only if no UpdateZone call in it did |
| DnsController.DNSController.Receive | dnsController.go:183-198 | a list with the current hash is dropped, any other becomes the candidate |
| HandOff.StepIsSafe | dnsController.go:180-336 | each atomic step of either loop keeps safety, the current list never returns to nil, and a candidate leaves only by promotion or a later store |
| HandOff.EveryInterleavingIsSafe | dnsController.go:180-336 | in every interleaving: no nil dereference under the lock, promoted lists were received, one forced sync for each promotion, stored = promoted + overwritten + pending |
| HandOff.NoDeadlock | dnsController.go:180-336 | neither loop is ever stuck: it can step, or the other holds the lock and can |
| HandOff.UndisturbedDelivery | dnsController.go:183-198 | undisturbed, the update loop drops a list with the current hash and makes any other the candidate |
| HandOff.UndisturbedTick | dnsController.go:307-336 | undisturbed, a tick promotes the candidate if there is one and forces one sync, and otherwise syncs without force if a list is current |
| HandOff.TwoPromotionsSuffice | dnsController.go:183-323 | if only one hash is delivered, two promotions make it current in any interleaving, and then stores and promotions use up a finite residue |
| HandOff.SettledStaysQuiet | dnsController.go:186-189 | once it is current with nothing in flight, nothing is stored or promoted again |
| HandOff.FairTicksConverge | dnsController.go:180-336 | with a delivery handled before each tick, two full ticks make the hash current and a third leaves nothing stored or pending, from any reachable state: a stale candidate, a stale list in flight or a tick under way included |
| HandOff.QuietStaysQuiet | dnsController.go:186-189 | from then on nothing is stored or promoted in any interleaving |
| HandOff.LastDeliveryWinsIff | dnsController.go:183-323 | after one fair tick the delivered list is current if and only if it was not already current with another candidate pending |
| HandOff.EqualDeliveryLosesToStaleCandidate | dnsController.go:186-189 | a run from every such state in which the delivery loses |
| Tally.PublishedIffHealthy | etcdController.go:165-210 | an endpoint is published if and only if it is configured and its healthy entries outnumber half of the agents |
| Tally.PublishedIffMajority | etcdController.go:142-210 | with one vote each, an endpoint is published if and only if it is configured and a strict majority of all agents calls it healthy in a fresh report |
| Tally.EntriesAreCounted | etcdController.go:142-151 | each healthy entry of a report for the address and port is counted, and no other |
| Tally.VotesAreVoters | etcdController.go:142-151 | the votes are at least the agents that vote, and equal to them if and only if no fresh report repeats a healthy entry |
| Tally.MajorityIffOneVoteEach | etcdController.go:142-175 | among any further agents that vote at most once the vote is the strict majority of the agents, if and only if no report repeats a healthy entry |
| Tally.PublishedMembers | etcdController.go:167-210 | published loadbalancers are the configured ones cut down to live endpoints, none empty, none with a live endpoint missing |
| Tally.LiveCounts | etcdController.go:172-193 | live endpoints are kept with their multiplicity, others dropped |
| Tally.LiveKeepsOrder | etcdController.go:172-193 | live endpoints keep configuration order |
| Tally.PublishedKeepsOrder | etcdController.go:167-210 | published loadbalancers keep configuration order |
| Tally.HealthyDespiteFaults | etcdController.go:127-175 | with fewer than half of the agents faulty in any way, an endpoint the others call healthy is healthy |
| Tally.DownDespiteFaults | etcdController.go:127-175 | with at most half faulty and one vote each, an endpoint the others call down is not healthy |
| Tally.SilentFaultsThreshold | etcdController.go:158-175 | the first bound is tight: with silent faults an endpoint is healthy if and only if fewer than half are faulty |
| Tally.LoudFaultsThreshold | etcdController.go:158-175 | and so is the second: with faulty agents that alone vote, once each, an endpoint is healthy if and only if more than half are faulty |
| Tally.MajoritiesIntersect | etcdController.go:142-175 | any two published endpoints were called healthy by one and the same fresh agent |
| Tally.RepeatedEntriesOutvote | etcdController.go:142-151 | one fresh report with a repeated entry outvotes two silent agents, without a majority of agents |
| Tally.PublishedMonotone | etcdController.go:117-210 | turning reports fresh or healthy never removes a published endpoint |
| Tally.FreshIffRecent | etcdController.go:237-250 | a report is fresh if and only if it is at most 45 seconds old or dated in the future, but not so far ahead that Go's clock overflows |
| EtcdController.ETCDController.GetStatusFromAgent | etcdController.go:221-253 | one Get; what etcd holds for the agent counts if and only if the Get works, it parses and its age, as Go computes it, is at most 45 seconds |
| EtcdController.ETCDController.AddVotes | etcdController.go:142-151 | the string-keyed count grows, for every address and port, by that endpoint's healthy entries |
| EtcdController.ETCDController.SyncStatus | etcdController.go:117-219 | every agent is asked once, and the string-keyed count publishes exactly what the vote per address and port publishes on all reports that etcd holds save those whose Get failed, with its hash |
| EtcdController.NothingFailed | etcdController.go:127-137 | if no Get failed, these are exactly the reports that etcd holds |
| EtcdController.ETCDController.GetWantedMonitorsAsString | etcdController.go:290-306 | the marshalled printed endpoints of all configured loadbalancers, in order |
| EtcdController.ETCDController.SyncMonitors | etcdController.go:308-347 | result, stored hash and key are those of the repair function for the answers the store recorded: one Get, and one Set of the wanted string unless nothing is to repair |
| Monitors.MonitorsParseBack | etcdController.go:290-306 | the published monitors parse back to all configured endpoints in order if and only if no protocol holds "://" |
| Monitors.MonitorsListEveryEndpoint | etcdController.go:290-306 | the monitors are the marshalled printed endpoints of all configured loadbalancers, in configuration order |
| Monitors.LastHashIsWanted | etcdController.go:308-347 | over every run the stored hash is the wanted string's from the first successful Set on, and 0 before |
| Monitors.WorkingSetRepairs | etcdController.go:308-347 | after any run a call whose Set would succeed returns nil and leaves the key as wanted, whatever its Get does and the key held |
| Monitors.RepairsWhatItCannotConfirm | etcdController.go:311-346 | Set is called if and only if the Get failed, the key is absent or its hash is not the stored one, and a call returns nil if and only if there was nothing to repair or its Set succeeded |
| Monitors.NilMeansRepaired | etcdController.go:308-347 | after any run a call that returns nil leaves the key as wanted, and the next undisturbed call sets nothing |
| Monitors.SkipsWrongValueIffCollision | etcdController.go:319-326 | a wrong value is skipped if and only if it collides with the wanted string after a successful Set, or hashes to 0 before the first |
| EndToEnd.ReportsToAnswers | dnsController.go:131-285 | after a failure-free promotion of a tallied list every query to every zone gets the majority-healthy addresses of the loadbalancers sharing the name, in order with multiplicity, or, if there are none, what it got before |
| EndToEnd.AnswersStay | dnsController.go:208-285 | and keeps getting it through all later ticks, failed fetches included |
| EndToEnd.BucketServesExpected | etcdController.go:165-216 | tally, matching and grouping by record name compose |
| EndToEnd.EqualHashesRebuildAlike | dnsController.go:186-189 | a delivery dropped for its equal hash would have changed no zone |
| EndToEnd.TallyChangesAreSeen | etcdController.go:165-216 | with a decodable configuration two tallies have the same stream if and only if they publish the same loadbalancers and addresses |
| EndToEnd.SettledAnswers | dnsController.go:131-285 | a settled world serves exactly the majority-healthy addresses under every name that has some |
| Pipeline.JointRunProjects | dnsController.go:180-336 | every interleaving of the loops with the provider's answers is a run of the hand-off and a run of the reconciler |
| Pipeline.EachPromotionIsOneSync | dnsController.go:307-336 | the forced syncs of the reconciler are for the promoted lists, one each, in order |
| Pipeline.UndeliveredZonesUntouched | dnsController.go:74-336 | a zone that no delivered list matches is never written, in every interleaving with any failures |
| Pipeline.UndeliveredAnswersStay | dnsController.go:74-336 | without outside writes a query that no delivered list claims keeps its answer, in every interleaving with any failures |
| Pipeline.DeliverySettles | dnsController.go:180-336 | if, without outside writes, from any reachable state only one list is delivered, fairly, and the fetches of its own forced syncs work, two full ticks get its rebuild under way, and it is settled once a working tick has had no failed write |
| Pipeline.UnfailingCatchesUp | dnsController.go:180-336 | if its forced syncs do not fail at all, no further tick is needed for that |
| Pipeline.DeliveryReachesAnswers | dnsController.go:131-336 | after any deliveries, interleavings and provider failures before, but no outside writes, two full fair ticks and one working tick without a failed write take a tallied list from delivery to the answers of every zone, and every query that no delivered list claims is answered as at the start |

## Left out

- Convergence.SettledForever: assumes a unique longest match for each loadbalancer; without it the assignment may change with the listing (`Matching.TiesMatterIffNotUnique`), and `Convergence.PromotionWritesIffRebuildChanges` then says which zones a forced sync writes.
- Convergence.EveryRunWritesWhatDiffers: assumes that a failed UpdateZone changes nothing; the theorems of `Runs` do not.
- Net.DottedQuad: IPv6 addresses and their text are not modelled; configured endpoints are IPv4 or nil.
- Zones by reference: zones are values, so aliasing between `currentZones` and `wantedZones` is excluded by the contract of `Zones.Copy`, not proved; the name slice is sorted as a value for the same reason.
- Memory model: the update loop reads the current list and the tick tests the candidate without the lock; both reads are modelled as atomic.
- Hash internals (xxhash, the zone hashes of the dns library) and JSON encoding: functions given as parameters; github.com/NectGmbH/dns is not part of this model.
- Starting and stopping of the loops, timers, the cycle and stop channels, metrics and logging: observation and shutdown only.
- A list that is sent but not yet received: each status sync sends from its own goroutine, so deliveries may be reordered; the hand-off model takes any sequence of received lists.
- Flags and configuration, leader election (raft, Kubernetes) and the etcd client: wiring around unseen libraries.
