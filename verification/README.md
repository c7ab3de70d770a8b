# Verified model of the mdnspp protocol core

mdnspp is a header-only mDNS/DNS-SD stack in C++. This project models the parts
of it where the protocol lives and proves what they promise, for all inputs and
all runs:

- **Names and packets** (`Bytes`, `Names`, `NameRoundTrip`, `Records`, `TxtCodec`,
  `Frame`): name encoding, skipping and decompression, TXT strings, resource
  records and the packet walker, with round trips in arbitrary surroundings.
- **Building packets** (`Response`, `ReplyContents`, `Query`, `QuerySplit`): responses,
  queries and the splitting of known-answer lists over several packets, including that the
  greedy split conserves the answers and needs the fewest packets.
- **The record cache** (`CacheModel`, `RecordCaches`): the cache is a function of
  its event log, and a record is present after a sweep exactly if a declarative
  reading of the log says so.
- **The service monitor** (`MonitorModel`, `MonitorInvariant`, `MonitorRuns`,
  `MonitorEffects`, `MonitorCounterexample`, `UnwatchLeftovers`, `ServiceMonitors`): the
  monitor as a state machine over packets, expiry, watch and unwatch; its structure, its
  callbacks and its coupling to the cache hold in every state of every run, and what each
  event does to each instance is said without the handlers.
- **End to end** (`Discovery`): one packet of a responder makes a watching monitor list
  the service with exactly the responder's data, and aggregation finds the same.
- **The responder** (`KnownAnswerSuppression`, `Tiebreak`, `ResponderModel`,
  `ResponderProgress`, `ServiceServers`, `PacketRuns`, `PendingResponses`,
  `ReplyPackets`): query matching, known answers, simultaneous probes, the
  probe/announce/live/stop lifecycle with what each event adds to it, the merged
  multicast reply and the packet it turns into.
- **One-shot aggregation** (`Aggregation`), **interface changes** (`NicModel`) and
  **schedules** (`Schedules`, `Schedulers`).

Code that computes values is modelled by functions and lemmas. Code that changes
state is modelled by classes and by methods with loops; each is proved to compute a
function of its old state, and the laws are proved about that function. Output to
the user or the network is a ghost trace. Time is an integer that never runs
backwards, one instant per event; names are normalised octet strings; addresses are
octets; random choices are parameters within the range the code draws from.

Check everything with `dafny verify dfyconfig.toml`.

## What the code does not promise

Where a natural or documented promise does not hold, the code is modelled as it is
and the exact condition is proved.

- The name encoder accepts empty labels; such a name decodes to its labels before
  the first empty one (`NameRoundTrip.NameRoundTrip`, `NameRoundTrip.EmptyLabelIsLost`).
- TXT strings come back changed if a key contains `=`, or if an empty key has a value
  (`TxtCodec.TxtRoundTrip`, `TxtCodec.TxtCounterexamples`).
- A TXT record too large for its length field is left out of a response but still
  counted in the header (`Response.ResponseRoundTrip`, `Response.OversizedTxtIsCounted`).
- The answer count of a split query, documented at `detail/dns_query.h:193` as the
  number of answers in the packet, also counts answers that did not encode
  (`QuerySplit.CountsAreExact`, `QuerySplit.UnencodableIsCounted`), and it wraps at
  65536 (`QuerySplit.CountWrapsExactly`, `QuerySplit.CountWraps`).
- Two probing servers with equal SRV data both give way (`Tiebreak.ExactlyOneDefers`,
  `Tiebreak.EarlierDefers`).
- A service can be reported lost although its current SRV record is good: any
  expired SRV record cached under its name ends it
  (`MonitorCounterexample.SupersededSrvEndsService`, `MonitorRuns.LossIsExact`).
- `docs/service-monitor.md:108-110` says unwatching purges the services' cache entries;
  the code (`basic_service_monitor.h:680-746`) leaves the cache alone, so the promise
  holds exactly if nothing was cached, and never if a service was listed
  (`UnwatchLeftovers.PurgeIsExact`). A leftover SRV record later ends the service found
  again (`UnwatchLeftovers.LeftoverEndsRediscovered`, `UnwatchLeftovers.LeftoverRun`).
- A goodbye makes a monitor that does not know the service report it found
  (`Discovery.GoodbyeIsListed`, with `Discovery.AnnouncementIsListed` for when).
- Refresh schedules outlive unwatching: instances that are tracked no more are still
  queried for (`Schedulers.UnwatchedIsQueried`).
- `update_service_info` right after the start, as the example in
  `docs/api/service_server.md` has it, lets a server go live under a name it has not
  probed for, and one while announcing adds announcements
  (`ResponderModel.NameIsExact`, `ResponderModel.CountIsExact`,
  `ResponderModel.UpdateWhileProbing`, `ResponderModel.UpdateWhileAnnouncing`).
- After a name conflict that ends the server, `stop()` never fires `on_done`
  (`ResponderModel.DoneIsExact`, `ResponderModel.ConflictEndsSilently`).
- A merged reply escalated to ANY has no TXT record if there is no TXT data, and
  drops the NSEC record (`ReplyPackets.MergedReplyCovers`, `ReplyPackets.NsecIsExact`,
  `ReplyPackets.EscalationLosesTxt`, `ReplyPackets.EscalationLosesNsec`).
- An update of the service that is announced more than once takes over the timer of a
  pending reply: no multicast reply is fired ever after
  (`PendingResponses.DeafIsExact`, `PendingResponses.UpdateSilencesReplies`). The other
  way round, a query takes over the timer of the announcements that
  `basic_service_server.h:221-223` promises, and the rest are never sent
  (`PendingResponses.BurstIsExact`, `PendingResponses.QueryCutsBurstShort`).
- An SRV record that precedes its PTR record is ignored by `aggregate`
  (`Aggregation.SrvOrderIsExact`, `Aggregation.SrvFirstIsLost`).
- Interface instances can stay out of date if the filter looks at the name or the
  loopback flag, or if the first enumeration failed (`NicModel.ConvergenceIsExact`).
- The comment at `basic_service_monitor.h:753-758` says the wake-up is at most one
  second away in all modes; one second is only the fallback when nothing is
  scheduled (`Schedules.CeilingIsExact`, `Schedules.LongDelay`). Back-off with a small
  multiplier and interval never grows, because each step is truncated
  (`Schedules.ReachIsExact`, `Schedules.StuckExample`).

## Model

| member | source | states |
|---|---|---|
| `Names.SkipDnsName` | lib/mdnspp/include/mdnspp/detail/dns_read.h:53-84 | the loop leaves the offset and verdict of the recursive definition, which on success lies strictly forward and in bounds |
| `Names.ReadDnsName` | lib/mdnspp/include/mdnspp/detail/dns_read.h:101-172 | on any buffer the loop ends within 132 iterations and returns the dotted text of the labels that stand there, or nothing if they are malformed, need more than 4 hops or exceed 255 characters |
| `Names.NameAt` | lib/mdnspp/include/mdnspp/detail/dns_read.h:101-172 | a decoded name consists of labels of 1 to 63 octets |
| `Names.LabelsThenPointer` | lib/mdnspp/include/mdnspp/detail/dns_read.h:111-172 | labels followed by the two octets of a pointer to an earlier offset mean those labels followed by the name at that offset with one hop less; skipping them goes to right behind the pointer |
| `Names.PointerMeans` | lib/mdnspp/include/mdnspp/detail/dns_read.h:118-139 | two octets of at least 0xC0 mean the name at the offset of their low 14 bits if a hop is left and that lies before, and no name otherwise; they are skipped as two octets |
| `Names.DecodedIsExact` | lib/mdnspp/include/mdnspp/detail/dns_read.h:101-172 | a name is read if and only if its labels can be read with four hops and its dotted text has at most 255 characters, and it is that text |
| `Names.WireInContext` | lib/mdnspp/include/mdnspp/detail/dns_read.h:53-172 | uncompressed labels at any place of any buffer decode to themselves, and skipping advances by exactly their encoded length |
| `Names.ReadableIsSkippable` | lib/mdnspp/include/mdnspp/detail/dns_read.h:53-172 | whatever can be decoded can be skipped, strictly forward and in bounds |
| `Names.MoreHopsSameName` | lib/mdnspp/include/mdnspp/detail/dns_read.h:107-139 | allowing more pointer hops never changes a name that decodes |
| `Names.NormalizeIsIdempotent` | lib/mdnspp/include/mdnspp/dns_name.h:95-109 | normalising twice is normalising once, and normalised names are recognised |
| `Names.NormalizeForgets` | lib/mdnspp/include/mdnspp/dns_name.h:95-109 | two names normalise alike if and only if they agree letter by letter but for case, once each has its final dot |
| `NameRoundTrip.EncodeDnsName` | lib/mdnspp/include/mdnspp/detail/dns_read.h:177-218 | the encoder returns the wire form of the labels of the text without its final dot, or nothing if a label exceeds 63 octets or the whole 255 |
| `NameRoundTrip.EncodableIsExact` | lib/mdnspp/include/mdnspp/detail/dns_read.h:177-218 | a name encodes if and only if no 64 octets in a row of it, without its final dot, are free of dots, and its wire form has at most 255 octets |
| `NameRoundTrip.NameRoundTrip` | lib/mdnspp/include/mdnspp/detail/dns_read.h:101-218 | for every encodable name at any place of any buffer, decoding returns the name with one final dot if and only if it has no empty label |
| `NameRoundTrip.NormalizedRoundTrip` | lib/mdnspp/include/mdnspp/detail/dns_read.h:101-218 | a normalised encodable name without empty labels comes back unchanged and is skipped exactly |
| `NameRoundTrip.CutInContext` | lib/mdnspp/include/mdnspp/detail/dns_read.h:101-218 | an encoded name with an empty label decodes to the labels before it |
| `NameRoundTrip.EmptyLabelIsLost` | lib/mdnspp/include/mdnspp/detail/dns_read.h:177-218 | "a..b" is encodable and decodes to "a." |
| `TxtCodec.EncodeTxtRecords` | lib/mdnspp/include/mdnspp/detail/dns_write.h:101-120 | the loop writes length-prefixed strings and skips those over 255 octets |
| `TxtCodec.ParseTxtEntries` | lib/mdnspp/include/mdnspp/parse.h:141-193 | the loop returns the entries of the recursive definition for any rdata, truncated strings included |
| `TxtCodec.DecodeEncoded` | lib/mdnspp/include/mdnspp/detail/dns_write.h:101-120 | decoding encoded strings gives the strings of at most 255 octets, each re-split at its first equals sign |
| `TxtCodec.TxtRoundTrip` | lib/mdnspp/include/mdnspp/parse.h:141-193 | the list of strings of at most 255 octets comes back unchanged if and only if no key contains an equals sign and no empty key has a value |
| `TxtCodec.TxtCounterexamples` | lib/mdnspp/include/mdnspp/parse.h:141-193 | concrete entries that do not survive |
| `Frame.SkipQuestionSection` | lib/mdnspp/include/mdnspp/detail/dns_frame.h:36-46 | the loop finds the end of the question section or fails as the recursive definition does |
| `Frame.ReadRrHeader` | lib/mdnspp/include/mdnspp/detail/dns_frame.h:53-89 | owner, type, class, TTL and rdata bounds of the record at an offset, with all bounds checks |
| `Frame.WalkDnsFrame` | lib/mdnspp/include/mdnspp/detail/dns_frame.h:22-99 | the records delivered from any octets, and the offset at which the walk stops, are those of the recursive definition, stopping at the first malformed record |
| `Frame.ViewInContext` | lib/mdnspp/include/mdnspp/detail/dns_write.h:28-43 | a record written anywhere in a buffer is found again with the same type, class, flush bit, TTL and rdata |
| `Frame.ParseWritten` | lib/mdnspp/include/mdnspp/parse.h:38-207 | rdata written for a PTR, SRV, A, AAAA or TXT record parses back to that record |
| `Frame.RecordRoundTrip` | lib/mdnspp/include/mdnspp/parse.h:38-207 | a well-formed record written anywhere in a buffer parses to what arrives, and the walk goes on right behind it |
| `Frame.WalkWritten` | lib/mdnspp/include/mdnspp/detail/dns_frame.h:48-99 | a sequence of well-formed records written anywhere in a buffer is delivered completely and in order, and the walk stops right behind it |
| `Frame.RecordLayout` | lib/mdnspp/include/mdnspp/detail/dns_write.h:28-43 | a written record octet by octet: owner, type, class with the flush bit on top, TTL, length, rdata |
| `Response.BuildDnsResponse` | lib/mdnspp/include/mdnspp/detail/dns_response.h:42-218 | the packet is the header with both counts, then the promised answers, then the promised additional records; nothing if a name does not encode or nothing is promised |
| `Response.PromisedShape` | lib/mdnspp/include/mdnspp/detail/dns_response.h:42-218 | every promised record has TTL the minimum of its type's TTL and the cap, class IN, and the cache-flush bit exactly if it is not a PTR |
| `Response.FittingWire` | lib/mdnspp/include/mdnspp/detail/dns_write.h:28-43 | records whose rdata exceeds 65535 octets leave no bytes, all others their wire form |
| `Response.ResponseRoundTrip` | lib/mdnspp/include/mdnspp/detail/dns_response.h:42-218 | walking a built response delivers exactly the promised records in order, except an oversized TXT record, and ends at the last octet of the packet; the header counts are right if and only if none is oversized |
| `Response.OversizedTxtIsCounted` | lib/mdnspp/include/mdnspp/detail/dns_response.h:42-218 | 257 strings of 255 octets: the reply to a TXT question is a bare header that counts a record |
| `ReplyContents.HeaderIsExact` | lib/mdnspp/include/mdnspp/detail/dns_response.h:42-218 | a reply has id 0, the response and authority flags, no question, what was asked for counted as answers and the rest as additional |
| `ReplyContents.SrvReply` | lib/mdnspp/include/mdnspp/detail/dns_response.h:42-218 | a receiver of the reply to an SRV question gets the SRV record with priority, weight, port and host of the service under its name, then the A and AAAA records of the host it has |
| `ReplyContents.AddressReply` | lib/mdnspp/include/mdnspp/detail/dns_response.h:42-218 | the reply to an A or AAAA question delivers that address of the host alone, and there is no packet if it has none |
| `ReplyContents.TxtReply` | lib/mdnspp/include/mdnspp/detail/dns_response.h:42-218 | the reply to a TXT question delivers one TXT record with what survives of the strings, even none, or nothing if it is oversized |
| `ReplyContents.FullReply` | lib/mdnspp/include/mdnspp/detail/dns_response.h:42-218 | the reply to a PTR or ANY question delivers the PTR, the SRV, the address and, if there is data that fits, the TXT record, field by field |
| `Query.BuildDnsQuery` | lib/mdnspp/include/mdnspp/detail/dns_query.h:27-67 | a header with one question, and the question with the unicast-response bit as asked |
| `Query.PatchHeader` | lib/mdnspp/include/mdnspp/detail/dns_query.h:163-183 | overwriting header octets changes the TC bit and the answer count and nothing else |
| `Query.BuildDnsQueryWithAnswers` | lib/mdnspp/include/mdnspp/detail/dns_query.h:163-183 | the question followed by all answers that encode, counted modulo 65536 |
| `Query.WholeIsWritten` | lib/mdnspp/include/mdnspp/detail/dns_query.h:113-158 | every well-formed answer is counted |
| `Query.SerializeAnswers` | lib/mdnspp/include/mdnspp/detail/dns_query.h:207-224 | the serialisation of all answers with the exact extent of each |
| `Query.BuildDnsQueryTc` | lib/mdnspp/include/mdnspp/detail/dns_query.h:195-276 | for every list, limit and encodable question, the loop returns the packets of the greedy grouping, with TC on all but the last |
| `Query.QueryDelivers` | lib/mdnspp/include/mdnspp/detail/dns_query.h:163-276 | a receiver reads from a query packet its question, its id, TC flag and counts, and exactly its answers, to the last octet |
| `QuerySplit.SplitConserves` | lib/mdnspp/include/mdnspp/detail/dns_query.h:226-276 | the groups concatenate to the answers in order, whatever the limit |
| `QuerySplit.SplitRespectsLimit` | lib/mdnspp/include/mdnspp/detail/dns_query.h:236-275 | every packet is non-empty, exceeds the limit only with a single answer, and holds fewer than 65536 answers |
| `QuerySplit.CountsAreExact` | lib/mdnspp/include/mdnspp/detail/dns_query.h:195-276 | for fewer than 65536 answers every packet of the train states the number of answers it holds if and only if every known answer encodes |
| `QuerySplit.UnencodableIsCounted` | lib/mdnspp/include/mdnspp/detail/dns_query.h:236-262 | an address record with three octets: the packet counts one answer and holds none |
| `QuerySplit.CountWrapsExactly` | lib/mdnspp/include/mdnspp/detail/dns_query.h:236-275 | for encodable answers that fit one packet the count is true if and only if there are fewer than 65536 |
| `QuerySplit.CountWraps` | lib/mdnspp/include/mdnspp/detail/dns_query.h:236-275 | 65536 well-formed answers in one packet whose count is zero |
| `QuerySplit.FirstGroup` | lib/mdnspp/include/mdnspp/detail/dns_query.h:236-275 | for any list the first group stops only where the next answer would exceed the limit, and the rest is split afresh |
| `QuerySplit.GreedyStaysAhead` | lib/mdnspp/include/mdnspp/detail/dns_query.h:236-275 | against any other acceptable split of the same answers the greedy one never falls behind |
| `QuerySplit.SplitIsOptimal` | lib/mdnspp/include/mdnspp/detail/dns_query.h:236-275 | for any list no order-preserving split into packets that fit or hold one answer has fewer packets |
| `QuerySplit.TrainDelivers` | lib/mdnspp/include/mdnspp/detail/dns_query.h:195-276 | the whole train delivers the complete list in order; every packet repeats the question, states its true count, has TC on all but the last and is oversized only with a single answer |
| `KnownAnswerSuppression.MatchQueries` | lib/mdnspp/include/mdnspp/detail/server_query_match.h:83-154 | the question loop computes the recursive match on any octets |
| `KnownAnswerSuppression.KindIsExact` | lib/mdnspp/include/mdnspp/detail/server_query_match.h:31-154 | a question is the meta query, else one for the first configured subtype it matches, else about the service if and only if it names its type, its instance or its host |
| `KnownAnswerSuppression.FoldSummarizes` | lib/mdnspp/include/mdnspp/detail/server_query_match.h:83-154 | each flag of the match is an existence statement over the questions, the type is the common one or ANY, and the subtype that of the last subtype question |
| `KnownAnswerSuppression.QuestionsAreSummarized` | lib/mdnspp/include/mdnspp/detail/server_query_match.h:31-154 | for any written question section matching ends exactly behind it and summarises it |
| `KnownAnswerSuppression.ParseKnownAnswers` | lib/mdnspp/include/mdnspp/detail/server_known_answer.h:26-82 | the answer loop computes the recursive mask on any octets |
| `KnownAnswerSuppression.KnownWritten` | lib/mdnspp/include/mdnspp/detail/server_known_answer.h:26-82 | over written records a type is marked if and only if some record of that type is owned by the service with enough TTL |
| `KnownAnswerSuppression.KnownAnswersEndToEnd` | lib/mdnspp/include/mdnspp/detail/dns_query.h:163-183 | for every one-question query with a well-formed known-answer list the responder finds the list where it starts and marks a type if and only if a record of it, owned by the service name, type or host, has at least the threshold TTL; of 65536 answers or more as many count as the 16-bit count says |
| `KnownAnswerSuppression.AllSuppressed` | lib/mdnspp/include/mdnspp/detail/server_known_answer.h:84-103 | true if and only if something would be sent and every type that would be sent is marked |
| `CacheModel.IdentityIsCanonical` | lib/mdnspp/include/mdnspp/record_cache.h:72-118 | record identity is equality of a canonical form, hence an equivalence |
| `CacheModel.InsertedIsExact` | lib/mdnspp/include/mdnspp/record_cache.h:151-194 | an inserted or refreshed entry belongs to its sender and expires after its TTL, or after the grace period if that is zero |
| `CacheModel.FlushIsExact` | lib/mdnspp/include/mdnspp/record_cache.h:151-194 | an insertion changes the expiry of another entry if and only if it has the flush bit and that entry has its owner name and type, another origin and an expiry after now plus grace, which it then becomes |
| `CacheModel.LeaseWitness` | lib/mdnspp/include/mdnspp/record_cache.h:151-194 | the lease computed event by event is the last insertion together with all later flushes against it |
| `CacheModel.RunTracks` | lib/mdnspp/include/mdnspp/record_cache.h:151-254 | in every state the entries agree with the leases, and what is missing has run out |
| `CacheModel.SweepKeepsExactlyPresent` | lib/mdnspp/include/mdnspp/record_cache.h:225-299 | right after a sweep at t an identity is cached if and only if t is before its last insertion plus its TTL (the grace period if zero) and before every later insertion with the flush bit of the same name and type from another origin plus grace |
| `CacheModel.SweepsDoNotMatter` | lib/mdnspp/include/mdnspp/record_cache.h:225-254 | intermediate sweeps never change what a later sweep leaves |
| `RecordCaches.RecordCache.Insert` | lib/mdnspp/include/mdnspp/record_cache.h:151-194 | insert or refresh plus cache flush: the entries stay those of the log, without two of one identity |
| `RecordCaches.RecordCache.ApplyCacheFlush` | lib/mdnspp/include/mdnspp/record_cache.h:257-290 | every entry of that owner name and record type from another origin gets the earlier of its deadline and the new one; every other entry stays |
| `RecordCaches.RecordCache.EraseExpired` | lib/mdnspp/include/mdnspp/record_cache.h:225-254 | exactly the expired entries are handed out, exactly the present ones stay |
| `RecordCaches.RecordCache.Find` | lib/mdnspp/include/mdnspp/record_cache.h:196-209 | exactly the entries of that name and type |
| `MonitorInvariant.ReplayIsBracketed` | lib/mdnspp/include/mdnspp/basic_service_monitor.h:553-620 | found and lost strictly alternate, starting with found; found carries an address; lost repeats the last report |
| `MonitorInvariant.ProcessKeeps` | lib/mdnspp/include/mdnspp/basic_service_monitor.h:372-549 | every incoming record keeps the invariant: partial and live disjoint, types recorded and watched, hosts known, no duplicate addresses or keys, no complete partial at rest, callbacks replay to the live map |
| `MonitorInvariant.ExpireAllKeeps` | lib/mdnspp/include/mdnspp/basic_service_monitor.h:575-660 | so does every list of expired records, in any order |
| `MonitorInvariant.UnwatchKeeps` | lib/mdnspp/include/mdnspp/basic_service_monitor.h:680-746 | unwatching ends exactly the services of that type, keeps the invariant and leaves exactly the hostnames in use |
| `MonitorEffects.PtrTakesEffect` | lib/mdnspp/include/mdnspp/basic_service_monitor.h:393-406 | a PTR record makes an unknown instance a blank partial one and does nothing else |
| `MonitorEffects.SrvTakesEffect` | lib/mdnspp/include/mdnspp/basic_service_monitor.h:408-442 | after an SRV record its instance has its host and port; a partial one with an address is found, a listed one gets exactly one update if host or port differed and none otherwise; all other instances are untouched |
| `MonitorEffects.AddressTakesEffect` | lib/mdnspp/include/mdnspp/basic_service_monitor.h:444-503 | an address is added exactly at the instances on its host without it: listed ones are updated once, partial ones with SRV record found, others keep it |
| `MonitorEffects.TxtTakesEffect` | lib/mdnspp/include/mdnspp/basic_service_monitor.h:506-549 | TXT strings are merged, and a listed instance is updated once if and only if one of them was not there; all others are untouched |
| `MonitorEffects.MergeIsExact` | lib/mdnspp/include/mdnspp/basic_service_monitor.h:506-549 | after a merge there are the last new string of every new key and the old strings of all others, old keys in their places |
| `MonitorEffects.SrvExpiryTakesEffect` | lib/mdnspp/include/mdnspp/basic_service_monitor.h:598-620 | an expired SRV record ends its instance alone: a listed one is lost, by goodbye if and only if it was marked so |
| `MonitorEffects.AddressExpiryTakesEffect` | lib/mdnspp/include/mdnspp/basic_service_monitor.h:622-639 | an expired address goes from the listed services on its host that have it, with one update each; every other address stays |
| `MonitorEffects.TxtExpiryTakesEffect` | lib/mdnspp/include/mdnspp/basic_service_monitor.h:641-664 | exactly the keys of an expired TXT record go from its listed instance, with one update if there were any |
| `MonitorEffects.UnwatchTakesEffect` | lib/mdnspp/include/mdnspp/basic_service_monitor.h:680-746 | unwatching forgets exactly the instances of that type, listed ones being lost as unwatched, and clears all goodbye marks |
| `MonitorRuns.ReceiveCouples` | lib/mdnspp/include/mdnspp/basic_service_monitor.h:333-345 | a received record keeps every believed target backed by a cached SRV record |
| `MonitorRuns.ExpiryCouples` | lib/mdnspp/include/mdnspp/basic_service_monitor.h:575-620 | so does a sweep |
| `MonitorRuns.NextKeepsGood` | lib/mdnspp/include/mdnspp/basic_service_monitor.h:333-746 | every event keeps structure, callbacks and cache coupling |
| `MonitorRuns.RunsAreGood` | lib/mdnspp/include/mdnspp/basic_service_monitor.h:333-746 | they hold in every state of every run |
| `MonitorRuns.CallbacksTellTheTruth` | lib/mdnspp/include/mdnspp/basic_service_monitor.h:393-620 | in every run the callbacks of an instance are well bracketed and say whether services() lists it and what it lists |
| `MonitorRuns.SilentMeansUnlisted` | lib/mdnspp/include/mdnspp/basic_service_monitor.h:553-571 | an instance without callbacks is not listed |
| `MonitorRuns.LiveIsFresh` | lib/mdnspp/include/mdnspp/basic_service_monitor.h:575-620 | right after a sweep every live service rests on an unexpired SRV insertion for exactly its host and port |
| `MonitorRuns.LossIsExact` | lib/mdnspp/include/mdnspp/basic_service_monitor.h:598-620 | a sweep ends a live service if and only if some SRV record cached under its name has expired |
| `MonitorCounterexample.SupersededSrvEndsService` | lib/mdnspp/include/mdnspp/basic_service_monitor.h:598-620 | a reachable run in which a service is lost while the SRV record for its current host is present |
| `UnwatchLeftovers.PurgeIsExact` | lib/mdnspp/include/mdnspp/basic_service_monitor.h:680-746 | in every good state, unwatching leaves nothing cached under the dropped instances if and only if nothing was cached there before, which is never so if a service of the type was listed |
| `UnwatchLeftovers.LeftoverEndsRediscovered` | lib/mdnspp/include/mdnspp/basic_service_monitor.h:598-746 | from any reachable state with a listed service: unwatched, watched and found again with a new SRV record and an A or AAAA record, with or without the flush bit, it is lost in every sweep after its old SRV record has expired or been flushed, though the new one is present |
| `UnwatchLeftovers.LeftoverRun` | lib/mdnspp/include/mdnspp/basic_service_monitor.h:598-746 | such a run exists for any type, instance, hosts and address |
| `Discovery.AnnouncementIsListed` | lib/mdnspp/include/mdnspp/basic_service_monitor.h:333-571 | one announcement or reply to a PTR question, with any TTLs, received by a watching monitor that does not know the instance, lists it with exactly the responder's host, port, TXT strings and addresses, if and only if it has an address |
| `Discovery.GoodbyeIsListed` | lib/mdnspp/include/mdnspp/basic_service_server.h:480-500 | the goodbye of an unknown service, all TTLs zero, makes it found and listed |
| `Discovery.FreshMonitorListsExactlyIt` | lib/mdnspp/include/mdnspp/basic_service_monitor.h:995-1020 | services() of a fresh monitor is then exactly that service |
| `Discovery.AggregateAgrees` | lib/mdnspp/include/mdnspp/resolved_service.h:71-189 | aggregating the records of the same packet gives the same service |
| `Discovery.FullReplyDelivers` | lib/mdnspp/include/mdnspp/detail/dns_response.h:42-218 | the records a receiver gets from an announcement or the reply to a PTR question |
| `Discovery.NoNewNames` | lib/mdnspp/include/mdnspp/basic_service_monitor.h:372-549 | only a PTR record brings in an instance |
| `ServiceMonitors.ServiceMonitor.constructor` | lib/mdnspp/include/mdnspp/basic_service_monitor.h:111-125 | a new monitor is in the initial state over an empty cache |
| `ServiceMonitors.ServiceMonitor.HandlePacket` | lib/mdnspp/include/mdnspp/basic_service_monitor.h:333-369 | any octets: exactly the relevant records are inserted into the cache, in order, and processed in turn, and the result says whether any was relevant |
| `ServiceMonitors.ServiceMonitor.HandleAddress` | lib/mdnspp/include/mdnspp/basic_service_monitor.h:459-503 | partial and live instances on that host gain the address once, and completed ones become live |
| `ServiceMonitors.ServiceMonitor.HandleSrv` | lib/mdnspp/include/mdnspp/basic_service_monitor.h:408-442 | the SRV step of the state machine, goodbyes included |
| `ServiceMonitors.ServiceMonitor.CheckResolved` | lib/mdnspp/include/mdnspp/basic_service_monitor.h:553-571 | a complete partial instance becomes live and is reported found; any other is left alone |
| `ServiceMonitors.ServiceMonitor.HandleExpired` | lib/mdnspp/include/mdnspp/basic_service_monitor.h:575-660 | the expiry steps of the state machine in the order given |
| `ServiceMonitors.ServiceMonitor.SweepCache` | lib/mdnspp/include/mdnspp/basic_service_monitor.h:842-850 | after the sweep every live service has an unexpired SRV insertion for its host and port |
| `ServiceMonitors.ServiceMonitor.DoWatch` | lib/mdnspp/include/mdnspp/basic_service_monitor.h:670-678 | the type is watched, the invariant kept |
| `ServiceMonitors.ServiceMonitor.DoUnwatch` | lib/mdnspp/include/mdnspp/basic_service_monitor.h:680-746 | the unwatch step of the state machine, computed by the same loops over live, partial and typed instances and hostnames |
| `MonitorModel.MergeEntries` | lib/mdnspp/include/mdnspp/basic_service_monitor.h:530-549 | last value per key, and whether anything changed |
| `Tiebreak.CompareAuthorityRecords` | lib/mdnspp/include/mdnspp/detail/server_probe_announce.h:71-85 | the loop computes the octet-wise comparison |
| `Tiebreak.CompareIsTotalOrder` | lib/mdnspp/include/mdnspp/detail/server_probe_announce.h:71-85 | it is a total order on octet strings |
| `Tiebreak.CompareIsDictionary` | lib/mdnspp/include/mdnspp/detail/server_probe_announce.h:71-85 | the comparison is negative if and only if the first string comes first in the dictionary |
| `Tiebreak.BuildProbeQuery` | lib/mdnspp/include/mdnspp/detail/dns_query.h:72-108 | one ANY question and one SRV record in the authority section, under the probe id |
| `Tiebreak.ExtractAuthoritySrvRdata` | lib/mdnspp/include/mdnspp/basic_service_server.h:885-932 | the rdata of the first SRV record of the authority section of any packet, or nothing |
| `Tiebreak.JudgeProbingPacket` | lib/mdnspp/include/mdnspp/basic_service_server.h:544-586 | what a probing server does about any packet: ignore, conflict or defer |
| `Tiebreak.ProbeIsUnderstood` | lib/mdnspp/include/mdnspp/basic_service_server.h:295-305 | a receiver extracts from a probe exactly the rdata its sender compares with, and sees the contested name |
| `Tiebreak.ProbeIsExact` | lib/mdnspp/include/mdnspp/detail/dns_query.h:69-107 | a probe is read as one unicast question for any record of the name and the SRV record of its sender in the authority section |
| `Tiebreak.RdataIsInjective` | lib/mdnspp/include/mdnspp/basic_service_server.h:874-883 | equal rdata means equal priority, weight, port and target |
| `Tiebreak.ExactlyOneDefers` | lib/mdnspp/include/mdnspp/basic_service_server.h:561-585 | of two servers probing for one name with distinct ids exactly one defers if and only if their SRV data differ; otherwise both do |
| `Tiebreak.EarlierDefers` | lib/mdnspp/include/mdnspp/basic_service_server.h:544-586 | hearing a probe for its name, a server defers if and only if its SRV data, octet by octet, are the same or come first, and otherwise goes on |
| `Tiebreak.OwnProbeIsIgnored` | lib/mdnspp/include/mdnspp/basic_service_server.h:544-586 | a server ignores its own probe |
| `Tiebreak.JudgeIsExact` | lib/mdnspp/include/mdnspp/basic_service_server.h:544-586 | over any octets: exactly when a packet is a conflict and exactly when it makes a probing server defer |
| `Tiebreak.AuthorityIsExact` | lib/mdnspp/include/mdnspp/basic_service_server.h:885-932 | for any written questions, answers and authority records the rdata found is that of the first SRV record in the authority section, or none |
| `ResponderModel.StepKeeps` | lib/mdnspp/include/mdnspp/basic_service_server.h:275-500 | every event, updates in any phase included, keeps the invariant relating phase, counters, timer, name and history |
| `ResponderModel.Lifecycle` | lib/mdnspp/include/mdnspp/basic_service_server.h:189-371 | in every run, with updates at any time: announcing only after an undisturbed attempt of exactly max(1, probe_count) probes and no probing afterwards; on_ready, on_done, going live and the goodbye at most once, each outcome matching the path taken; a goodbye only after an announcement and nothing sent after it; going live takes max(1, announce_count) announcements since the last update |
| `ResponderModel.NameIsExact` | lib/mdnspp/include/mdnspp/basic_service_server.h:226-350 | in every run the name first announced is the one every probe of its attempt was for, if and only if no update since the attempt began has put another name into force |
| `ResponderModel.CountIsExact` | lib/mdnspp/include/mdnspp/basic_service_server.h:226-350 | a server that goes live has announced itself exactly max(1, announce_count) times if and only if it was not updated since its first announcement |
| `ResponderModel.UpdatesInTime` | lib/mdnspp/include/mdnspp/basic_service_server.h:226-350 | with updates only before the start or once live, the announced name is the one probed for and the announcements are exactly as many as asked for |
| `ResponderModel.UpdateWhileProbing` | lib/mdnspp/include/mdnspp/basic_service_server.h:226-238 | an update after the first probe: the server goes live under a name it never probed for |
| `ResponderModel.UpdateWhileAnnouncing` | lib/mdnspp/include/mdnspp/basic_service_server.h:226-238 | an update between two announcements: three are sent where two were asked for |
| `ResponderModel.NoWayBack` | lib/mdnspp/include/mdnspp/basic_service_server.h:320-350 | from announcing or live no run, updates included, returns to probing |
| `ResponderModel.ConflictIsSilent` | lib/mdnspp/include/mdnspp/basic_service_server.h:429-464 | a server ended by a conflict does nothing any more |
| `ResponderModel.ConflictEndsSilently` | lib/mdnspp/include/mdnspp/basic_service_server.h:429-464 | every probing server that meets a conflict without a new name ends that way |
| `ResponderModel.DoneIsExact` | lib/mdnspp/include/mdnspp/basic_service_server.h:189-219 | stop() and its teardown fire on_done if and only if a handler waits and the server has not ended before |
| `ResponderProgress.UndisturbedGoesLive` | lib/mdnspp/include/mdnspp/basic_service_server.h:275-350 | an attempt left alone sends exactly max(1, probe_count) probes and then max(1, announce_count) announcements, one per firing of the timer, goes live and calls on_ready |
| `ResponderProgress.StartedGoesLive` | lib/mdnspp/include/mdnspp/basic_service_server.h:166-178 | so does a server that is started |
| `ResponderProgress.ConflictTakesEffect` | lib/mdnspp/include/mdnspp/basic_service_server.h:429-464 | a conflict makes a probing server probe for the new name and, left alone, go live under it; without a new name it ends and says so |
| `ResponderProgress.YieldedComesBack` | lib/mdnspp/include/mdnspp/basic_service_server.h:429-474 | a server that yields starts over under the same name and, left alone, goes live |
| `ResponderProgress.UpdateTakesEffect` | lib/mdnspp/include/mdnspp/basic_service_server.h:226-238 | a live server announces an update max(1, announce_count) times; any other running one goes on under the new name |
| `ResponderProgress.StopTakesEffect` | lib/mdnspp/include/mdnspp/basic_service_server.h:189-219 | stop sends a goodbye if and only if goodbyes are sent and something was announced; then on_ready is cancelled if still under way and on_done called if there is one |
| `PacketRuns.PacketsDriveRuns` | lib/mdnspp/include/mdnspp/basic_service_server.h:506-586 | whatever packets arrive, judged as the code judges them, and however the service is updated, the server goes through a run of the lifecycle |
| `PacketRuns.PacketLifecycle` | lib/mdnspp/include/mdnspp/basic_service_server.h:506-586 | so all promises of the lifecycle hold whatever anybody sends |
| `PacketRuns.IdIsRedrawn` | lib/mdnspp/include/mdnspp/basic_service_server.h:275-293 | a new probe id is drawn exactly when an attempt begins: at the start, after a deferral and under a new name |
| `PacketRuns.ExactlyOneYields` | lib/mdnspp/include/mdnspp/basic_service_server.h:544-586 | two servers after any runs of their own probe for one name and hear each other: the one whose SRV data come first yields and the other is unmoved, and both yield if and only if the data are the same |
| `PacketRuns.OnPacket` | lib/mdnspp/include/mdnspp/basic_service_server.h:506-586 | the object reacts to a packet with the event its judgement picks |
| `ServiceServers.ServiceServer.OnTimer` | lib/mdnspp/include/mdnspp/basic_service_server.h:275-350 | the timer step: next probe, announcing, next announcement, live, reprobing, or the next announcement of an update |
| `ServiceServers.ServiceServer.UpdateServiceInfo` | lib/mdnspp/include/mdnspp/basic_service_server.h:226-238 | the update step in any phase |
| `ServiceServers.ServiceServer.HandleNameConflict` | lib/mdnspp/include/mdnspp/basic_service_server.h:429-464 | the conflict step |
| `ServiceServers.ServiceServer.HandleTiebreak` | lib/mdnspp/include/mdnspp/basic_service_server.h:466-478 | the deferral step |
| `ServiceServers.ServiceServer.StopCall` | lib/mdnspp/include/mdnspp/basic_service_server.h:189-196 | the caller's part of stop() |
| `ServiceServers.ServiceServer.RunTeardown` | lib/mdnspp/include/mdnspp/basic_service_server.h:197-219 | the executor's part of stop() |
| `PendingResponses.MergeAllJoins` | lib/mdnspp/include/mdnspp/detail/server_response_aggregation.h:23-61 | the merge of any queries is their join: the common type or ANY, NSEC if any asks, a type suppressed only if all suppress it |
| `PendingResponses.JoinIsUnique` | lib/mdnspp/include/mdnspp/detail/server_response_aggregation.h:23-61 | the join depends only on the set of queries, not on order or repetition |
| `PendingResponses.PendingTracksQueries` | lib/mdnspp/include/mdnspp/basic_service_server.h:710-746 | in every run the reply merges exactly the queries since the last firing, is armed exactly while there are any, and the timer waits to fire it only then |
| `PendingResponses.FiredIsJoin` | lib/mdnspp/include/mdnspp/basic_service_server.h:732-746 | what is fired is the join of those queries, and nothing is left pending |
| `PendingResponses.DeafIsExact` | lib/mdnspp/include/mdnspp/basic_service_server.h:352-371 | at the end of any run the reply is armed exactly while the timer waits to fire it, if and only if no update announced more than once came while queries were waiting |
| `PendingResponses.StaysDeaf` | lib/mdnspp/include/mdnspp/basic_service_server.h:710-746 | an armed reply whose timer waits for something else is never fired, nor is any later one |
| `PendingResponses.UpdateSilencesReplies` | lib/mdnspp/include/mdnspp/basic_service_server.h:226-238 | one query and one update: no reply is fired whatever follows |
| `PendingResponses.BurstIsExact` | lib/mdnspp/include/mdnspp/basic_service_server.h:352-371 | after any update and until the next, its announcements are cut short if and only if a query arrives unarmed while some are due; otherwise each time the timer fires one more is sent until all are |
| `PendingResponses.QueryCutsBurstShort` | lib/mdnspp/include/mdnspp/basic_service_server.h:221-238 | two announcements due, one query: the second is never sent |
| `PendingResponses.MulticastReplies.Schedule` | lib/mdnspp/include/mdnspp/basic_service_server.h:710-730 | the object goes through the query step of the run; only the first query touches the timer |
| `PendingResponses.MulticastReplies.OnTimer` | lib/mdnspp/include/mdnspp/basic_service_server.h:732-746 | the object goes through the timer step; what is sent is the join of exactly the queries waiting in its log |
| `PendingResponses.MulticastReplies.UpdateServiceInfo` | lib/mdnspp/include/mdnspp/basic_service_server.h:226-238 | the object goes through the update step |
| `ReplyPackets.BuildNsecBitmap` | lib/mdnspp/include/mdnspp/detail/dns_write.h:127-160 | one window block with the five bitmap octets |
| `ReplyPackets.BitmapIsExact` | lib/mdnspp/include/mdnspp/detail/dns_write.h:127-160 | the bit of every type is set if and only if the service has that type |
| `ReplyPackets.NsecMeans` | lib/mdnspp/include/mdnspp/detail/server_response_aggregation.h:63-118 | a receiver reads from the NSEC record the host as owner and as next name, no flush bit, its TTL, and one block of five octets with exactly the bits of the types that exist |
| `ReplyPackets.BuildResponseWithNsec` | lib/mdnspp/include/mdnspp/detail/server_response_aggregation.h:63-118 | nothing if suppressed, else the response, with the NSEC record appended and counted if one is due |
| `ReplyPackets.ReplyDelivers` | lib/mdnspp/include/mdnspp/detail/server_response_aggregation.h:63-118 | a receiver gets nothing if the type asked for is known and suppressed; otherwise the records promised that fit, in order and to the last octet, and an NSEC record if and only if one is needed and ANY was not asked |
| `ReplyPackets.MergedReplyCovers` | lib/mdnspp/include/mdnspp/detail/server_response_aggregation.h:63-118 | known answers included, the merged reply carries all answers a merged query would have got alone, if and only if it is not ANY in place of an unsuppressed TXT question without TXT data |
| `ReplyPackets.NsecIsExact` | lib/mdnspp/include/mdnspp/detail/server_response_aggregation.h:63-118 | an NSEC record is in the packet if and only if some merged query needs one, all ask for one type other than ANY, and not all know its answer |
| `ReplyPackets.EscalationLosesTxt` | lib/mdnspp/include/mdnspp/detail/server_response_aggregation.h:30-52 | a TXT and an SRV question merged, without TXT data: the TXT record the first would have got is not sent |
| `ReplyPackets.EscalationLosesNsec` | lib/mdnspp/include/mdnspp/detail/server_response_aggregation.h:63-118 | a question that alone is answered with an NSEC record loses it when merged with another |
| `Aggregation.Aggregate` | lib/mdnspp/include/mdnspp/resolved_service.h:71-189 | the two passes return exactly one service per distinct PTR target, each as specified |
| `Aggregation.LastAcceptedSrvWins` | lib/mdnspp/include/mdnspp/resolved_service.h:99-110 | host and port are those of the last SRV record after the instance's first PTR record |
| `Aggregation.AddressesByPosition` | lib/mdnspp/include/mdnspp/resolved_service.h:142-172 | the addresses are exactly the values owned by the target of any accepted SRV record, each once |
| `Aggregation.LatestPerKey` | lib/mdnspp/include/mdnspp/resolved_service.h:112-127 | one TXT string per key, in order of first appearance, with its latest value |
| `Aggregation.TxtByPosition` | lib/mdnspp/include/mdnspp/resolved_service.h:112-127 | the TXT strings are exactly those that no later string of the same key follows, in their own record or in a later one behind the PTR record |
| `Aggregation.AcceptedIsExact` | lib/mdnspp/include/mdnspp/resolved_service.h:89-127 | a record counts for an instance if and only if a PTR record to it stands before |
| `Aggregation.AddressesMayMove` | lib/mdnspp/include/mdnspp/resolved_service.h:71-189 | moving A and AAAA records anywhere, each kind in its own order, leaves every service unchanged |
| `Aggregation.SrvBeforePtrIsIgnored` | lib/mdnspp/include/mdnspp/resolved_service.h:89-110 | an instance without SRV record after its PTR record stays blank |
| `Aggregation.SrvOrderIsExact` | lib/mdnspp/include/mdnspp/resolved_service.h:89-110 | every SRV record of an instance counts if and only if none precedes the first PTR record to it |
| `Aggregation.SrvFirstIsLost` | lib/mdnspp/include/mdnspp/resolved_service.h:89-110 | one SRV and one PTR record: blank in this order, resolved in the other |
| `NicModel.NicMonitor.ApplyDiff` | lib/mdnspp/include/mdnspp/basic_nic_monitor.h:132-225 | departures and changes, then arrivals, are posted in order, and the snapshot is replaced |
| `NicModel.DiffAt` | lib/mdnspp/include/mdnspp/basic_nic_monitor.h:158-215 | seen from one index, a comparison posts exactly its change |
| `NicModel.DiffIsExact` | lib/mdnspp/include/mdnspp/basic_nic_monitor.h:158-215 | what is posted about one interface: arrival, departure, departure then arrival if up or an address changed, else nothing |
| `NicModel.DrainForgetsOrKeeps` | lib/mdnspp/include/mdnspp/basic_nic_group.h:223-258 | a queue either forgets what a slot held or keeps it |
| `NicModel.NicGroup.OnNicAdded` | lib/mdnspp/include/mdnspp/basic_nic_group.h:223-248 | an accepted interface gets a slot unless its index has one |
| `NicModel.NicGroup.OnNicRemoved` | lib/mdnspp/include/mdnspp/basic_nic_group.h:250-258 | the slot of that index goes |
| `NicModel.NicGroup.Seed` | lib/mdnspp/include/mdnspp/basic_nic_group.h:106-111 | the interfaces of the snapshot are added in order |
| `NicModel.RunKeeps` | lib/mdnspp/include/mdnspp/basic_nic_group.h:84-112 | in every run draining the queue, with seeding if it is still to come, leads every slot to what the snapshot wants |
| `NicModel.RunConverges` | lib/mdnspp/include/mdnspp/basic_nic_monitor.h:132-225 | once seeded and drained, the slots are exactly the accepted interfaces of the last snapshot with its state and addresses, whenever seeding took place |
| `NicModel.AgreesMeans` | lib/mdnspp/include/mdnspp/basic_nic_group.h:223-258 | agreement written out: every accepted interface has a slot with its up flag and addresses, and no slot is without one |
| `NicModel.ConvergenceIsExact` | lib/mdnspp/include/mdnspp/basic_nic_monitor.h:59-70 | all runs converge if and only if the filter ignores what the comparison ignores and the first enumeration succeeded or nothing is ever accepted |
| `Schedules.MakeRefreshSchedule` | lib/mdnspp/include/mdnspp/detail/ttl_refresh.h:55-82 | the points lie at each threshold plus a jitter between zero and the jitter fraction of the lifetime |
| `Schedules.FirePointIsExact` | lib/mdnspp/include/mdnspp/detail/ttl_refresh.h:65-82 | a point is the last tick not after threshold plus jitter times the TTL |
| `Schedules.PointsInOrder` | lib/mdnspp/include/mdnspp/detail/ttl_refresh.h:55-82 | gaps of at least the jitter fraction give non-decreasing points, whatever the jitter |
| `Schedules.OrderIsExact` | lib/mdnspp/include/mdnspp/detail/ttl_refresh.h:55-82 | all jitters give ordered points if and only if no latest point lies behind a later threshold's earliest |
| `Schedules.BeforeExpiryIsExact` | lib/mdnspp/include/mdnspp/detail/ttl_refresh.h:65-82 | all jitters keep a point strictly before expiry if and only if threshold plus jitter fraction is below one |
| `Schedules.PointsComeOnce` | lib/mdnspp/include/mdnspp/detail/ttl_refresh.h:90-98 | any number of calls hand out every remaining point once and in order, and then nothing |
| `Schedules.ConsumeCounts` | lib/mdnspp/include/mdnspp/basic_service_monitor.h:865-889 | a tick consumes exactly the due points not consumed before |
| `Schedules.TicksConsumeOnce` | lib/mdnspp/include/mdnspp/basic_service_monitor.h:842-889 | over any run of ticks each point is consumed once, by the first tick at or after it |
| `Schedules.NoneLeftDueIsExact` | lib/mdnspp/include/mdnspp/basic_service_monitor.h:865-889 | ticks at all times leave nothing due if and only if the points are in order |
| `Schedules.AdvanceBackoff` | lib/mdnspp/include/mdnspp/detail/query_backoff.h:30-48 | the next interval, at most the maximum after the first call |
| `Schedules.IntervalsGrow` | lib/mdnspp/include/mdnspp/detail/query_backoff.h:30-48 | with a multiplier of at least one and initial at most maximum the intervals never shrink and stay within the maximum |
| `Schedules.IntervalIsExact` | lib/mdnspp/include/mdnspp/detail/query_backoff.h:30-48 | each interval is the one before times the multiplier in whole milliseconds, or the maximum |
| `Schedules.AdvanceGivesIntervals` | lib/mdnspp/include/mdnspp/detail/query_backoff.h:30-48 | the state after n+1 calls holds the n-th interval |
| `Schedules.CapIsExact` | lib/mdnspp/include/mdnspp/detail/query_backoff.h:30-48 | no interval exceeds the maximum if and only if the initial one does not |
| `Schedules.ReachIsExact` | lib/mdnspp/include/mdnspp/detail/query_backoff.h:40-47 | the maximum is ever reached if and only if the first step gains a whole millisecond |
| `Schedules.StuckExample` | lib/mdnspp/include/mdnspp/detail/query_backoff.h:40-47 | from one millisecond, a multiplier of 1.5 never reaches any larger maximum |
| `Schedules.PeekIsNext` | lib/mdnspp/include/mdnspp/basic_service_monitor.h:775-796 | the interval the scheduler looks ahead to is what the next back-off call returns |
| `Schedules.DeadlinesAreExact` | lib/mdnspp/include/mdnspp/basic_service_monitor.h:762-823 | what the scheduler wakes up for: the next query of every type if it discovers, and the next point of every schedule that has one unless it only observes |
| `Schedules.ArmScheduler` | lib/mdnspp/include/mdnspp/basic_service_monitor.h:762-835 | the armed delay is that of the earliest of all query and refresh deadlines, or one second if there is none |
| `Schedules.WakesInTime` | lib/mdnspp/include/mdnspp/basic_service_monitor.h:825-829 | the delay never passes a deadline and falls short of it by less than a millisecond |
| `Schedules.CeilingIsExact` | lib/mdnspp/include/mdnspp/basic_service_monitor.h:753-823 | with something scheduled, the delay is at most 1000 ms if and only if something falls within the next 1001 ms, the delay being cut to whole milliseconds |
| `Schedules.LongDelay` | lib/mdnspp/include/mdnspp/basic_service_monitor.h:762-823 | one type watched with an initial interval of five seconds gives a delay of five seconds |
| `Schedulers.Scheduler.OnSchedulerTick` | lib/mdnspp/include/mdnspp/basic_service_monitor.h:842-889 | unless stopped, a tick takes the monitor through exactly the expiry of what has expired, leaving only services with a good SRV record, queries every watched type once and backs off, consumes every due point with one query each, as the mode says, and arms for the earliest remaining deadline |
| `Schedulers.Scheduler.DoWatch` | lib/mdnspp/include/mdnspp/basic_service_monitor.h:670-678 | a new type is watched with a fresh back-off and a running scheduler armed anew |
| `Schedulers.Scheduler.DoUnwatch` | lib/mdnspp/include/mdnspp/basic_service_monitor.h:680-746 | the type goes, with its back-off and services; refresh schedules stay |
| `Schedulers.Scheduler.RebuildRefresh` | lib/mdnspp/include/mdnspp/basic_service_monitor.h:897-908 | unless observing or without thresholds, the instance's schedule is replaced by fresh points from now |
| `Schedulers.KeyNamesInstance` | lib/mdnspp/include/mdnspp/basic_service_monitor.h:874-884 | the key of a schedule names its instance |
| `Schedulers.UnwatchedIsQueried` | lib/mdnspp/include/mdnspp/basic_service_monitor.h:680-889 | after unwatching a listed service the next tick queries for it, untracked, if and only if a point of its refresh schedule is due |
| `Schedules.SendsIffDue` | lib/mdnspp/include/mdnspp/basic_service_monitor.h:869-885 | a tick sends something for a schedule if and only if its next point is due |
| `Schedulers.Scheduler.AsyncStart` | lib/mdnspp/include/mdnspp/basic_service_monitor.h:142-166 | the scheduler runs and is armed |

## Left out

- Sockets, event loops, timers, locks, atomics, threads, platform back-ends and interface enumeration: foreign calls; their results are parameters or events.
- Random number generators: draws are parameters within their range; floating point is exact real arithmetic with the code's truncations; clock and interval overflow is not modelled.
- IP address text: addresses are octets, and text that does not parse is an address of another length; record lengths and sender addresses inside records are dropped.
- Cache user callbacks, cache snapshots and the remaining-TTL and wire-TTL fields of services.
- Callback order across instances: it depends on hash-table traversal, so callbacks are kept as one trace per instance.
- Which records rebuild which refresh schedule: rebuilding is an operation of its own; the queries a tick sends are only counted.
- `update_service_info`: its effects on the lifecycle, on what a probing server compares with and on the response timer are modelled, each on its own; what its new data change in later replies is not.
- Duplicate-answer suppression, TC reassembly in the responder and the legacy-unicast, meta-query and subtype reply packets: easy appends around modelled parts.
- Unencodable question and probe names: the query builders index into the packet without checking, so encodability is required of their callers.
- QuerySplit.TrainDelivers: asks for fewer than 65536 answers, or for a limit below 65536 octets with answers that all encode, because the code's answer counter has 16 bits and wraps.
- QuerySplit.SplitRespectsLimit: the same condition.
- Schedules.MakeRefreshSchedule: jitter may reach its upper bound, which the code's half-open draw excludes.
- Observers, queriers, discovery wrappers, type-erased groups, error categories, option structures and formatting: thin.
