# Verified model of the network monitor's core

This project states, in Dafny, what the hard parts of the network monitor do, and proves what they are for.
It consists of six groups of modules, each beside the source file it models.

**Flow collector (`src/flow.rs`).** `FlowRecords` and `FlowDecoder` split data sets into records and interpret their
fields; `FlowFraming` parses NetFlow v9 (RFC 3954, sections 5.1 to 5.3) and IPFIX (RFC 7011, sections 3.1, 3.3, 3.4.1
and 7) messages into sets and templates. `FlowCaches` describes every critical section on the shared template cache and
orphan cache as one step of a listener that works off a list; `FlowCollector` is the class whose methods update the
caches in place, and each of its methods is proved equal to those steps. `FlowSystem` interleaves a NetFlow and an
IPFIX listener on the same caches, one critical section at a time, with an arbitrary clock, and proves the invariants,
the exactly-once accounting and the isolation of scopes. `FlowIsolation` shows that over whole runs neither listener
and no exporter influences another, `FlowOrder` and `FlowLimits` that the order of arrival does not matter as long as
nothing decodable is given up, with a condition per scope under which nothing is, and `FlowSequence` that even the
sequence of the output is the same wherever a template set arrives and however often it is repeated. `FlowDatagrams`
lifts this to the datagrams a listener is fed, `FlowWire` composes it with the wire formats, and `FlowExporters` with
isolation: in any run of both listeners with any number of exporters, each exporter gets back exactly the records it
encoded.

Three modules say the same things from outside, without the functions that the listener code is made of.
`FlowMessages`: what is read from a datagram is exactly what an exporter can have written. `FlowMeaning`: every
property of a decoded record is what the last field that carries it says. `FlowExpiry`: what is decoded, and what is
taken back, depends on the readings at which a run inserted templates and parked data sets, and on 30 minutes and 10
seconds after them.

The age of a waiting packet counts from the moment it was last buffered: replay takes packets out of the cache, and a
data set that still has no template is parked again with a new time stamp (`src/flow.rs:937-944`). All statements
about orphans in this project speak of that stamp.

**Ring buffer and roll-up (`src/flow.rs`, `src/db/repository.rs`).** `FlowRing` is the ring under its lock,
`FlowAggregate` the per-minute fold and the additive upserts with their failures, `FlowRollup` the protocol between the
pushing listeners and the roll-up thread, in every interleaving of pushes, the clock reading and the locked collection.
`FlowMinutes` states the rows of the table as sums over the flow records themselves.

The upserts are separate statements without a transaction around them (`src/db/repository.rs:357-367`), in the order in
which a hash map lists its keys. Binding a parameter above 2^63-1 fails, and ends the loop; what was written before
stays, and the roll-up thread logs the failure and does not try again (`src/flow.rs:411-417`). An integer sum above
2^63-1 does not fail: SQLite turns it into a floating-point number, which the model calls `Rounded`.

**SNMP walks (`src/snmp/walk_api.rs`, `src/snmp/client.rs`).** `SnmpWalk` and `TemplateColumn` model the two GETNEXT
walks, against an arbitrary agent and against a faithful one (RFC 3416, section 4.2.2).

**Joins over walked tables (`src/snmp/topology.rs`, `src/snmp/dom.rs`).** `LldpTables` is the LLDP normalizer,
`LldpQuality` the quality report, `LldpComplete` what a complete report guarantees about the neighbors, `LldpWitness` a
report that shows where the guarantee ends. `LldpMeaning` states every field of a neighbor, and `LldpFaults` every
counter of the report, in terms of the names and values of the walked rows. `Dom` holds the climb through the
containment graph, the alias table and the ambiguity rule for optical power, `DomTable` the join of all walked columns,
and `DomMeaning` what a row contributes in terms of these columns.

**Object identifiers and templates (`src/snmp/template.rs`, `src/snmp/client.rs`).** `Decimal` and `OidText` are the
parser and the printer (RFC 2578, section 3.5), `TemplateRegistry` the merging of user files and the choice of a
template.

**Smaller algorithms.** `Layout`, `LayoutMeaning` and `LayoutOverlap` (`frontend/src/pages/topology.ts`), `WebSocket`
(`src/diagnostics.rs`; RFC 6455, sections 5.2 and 5.3), `RenamePlan` (`src/device/metadata.rs`) and `Alerts`
(`src/alert/rules.rs`).

`Basics`, `Sums`, `Utf8` and `Snmp` hold shared vocabulary: bytes and big-endian numbers, sums of multisets over
sequences, well-formed UTF-8 and its white space, and variable bindings. `Utf8Meaning` ties the octets to Unicode scalar
values (section 3 of RFC 3629).

## What does not hold without a condition

The following properties are false of the program as it stands; each is stated with its exact condition.

- A template whose records can take no octets makes the decoder drop every record (`FlowRecords.RoundTripExact`).
- A record pushed in the very instant at which the roll-up thread reads its clock, but after that reading's collection,
  is never counted (`FlowRollup.TieLosesRecord`, `FlowRollup.LateExactly`).
- A total above 2^63-1 is not in the table as a whole number (`FlowAggregate.BatchingIrrelevant`), and such a total
  within one batch may take other rows of the batch along: a row is exact whatever the order of the writes if and only
  if its total fits and no batch that has it has any total that does not (`FlowAggregate.AnyOrderExactly`).
- The template column walk takes a Null value for the end of the column (`TemplateColumn.ColumnIsSubtreeExactly`).
- The neighbors of a complete LLDP report may depend on the order of the management address rows: they do not if and
  only if no remote row has two different addresses (`LldpComplete.NeighborsIgnoreAddressOrderExactly`).
- The WebSocket reader misreads every frame whose payload has exactly 127 octets (`WebSocket.FrameRoundTripExact`).
- Two nodes of different layers of the diagram can be drawn in one place: if and only if, for some positive k, they are
  16k layers and 25k rows apart and equally far from the middle of their rows (`Layout.SharedPlaceExactly`). With
  distinct ids this takes at least 1293 nodes (`Layout.NoOverlap`).

Each has an instance: `FlowRecords.EmptyRecordIsLost`, `FlowRollup.TieLosesRecord`, `FlowAggregate.LossDependsOnOrder`,
`FlowAggregate.SumIsRounded`, `TemplateColumn.NullEndsColumn`, `LldpWitness.CompleteYetOrdered`,
`WebSocket.LettersMisread`, `LayoutOverlap.Overlap`.

## Model

| member | source | states |
|---|---|---|
| FlowRecords.SplitRecordExact | src/flow.rs:1064-1103 | a record is read off the front of a data set as given field values, leaving a given rest, if and only if the data is the RFC 7011 section 7 encoding of those values followed by that rest |
| FlowRecords.PaddingSplitsToNothing | src/flow.rs:975-990 | padding shorter than the shortest record of the template yields no record |
| FlowRecords.RoundTrip | src/flow.rs:975-990 | any list of records, with fixed and variable-length fields in either length form, followed by short padding, is split into exactly those records in order |
| FlowRecords.RoundTripExact | src/flow.rs:982-984 | data sets survive if and only if the template's records take at least one octet or there are none |
| FlowRecords.EmptyRecordIsLost | src/flow.rs:982-984 | an instance: the one empty record of a template without fields is dropped |
| FlowDecoder.DecodeNumber | src/flow.rs:1155-1164 | exactly values of one to eight octets are numbers, and the fold never loses bits beyond 64 |
| FlowDecoder.StringIsTrimmed | src/flow.rs:1171-1180 | a text is decoded to the octets before the first NUL without the white space on both sides, and to nothing if and only if these octets are blank |
| FlowDecoder.BigEndianBound | src/flow.rs:1155-1164 | the value of n octets is below 256 to the n-th power |
| FlowDecoder.InterpretIsLookup | src/flow.rs:1064-1128 | overwriting field by field yields, for each property of a record, what the last field with that meaning says |
| FlowDecoder.ReadField | src/flow.rs:1066-1091 | offset arithmetic over one field agrees with splitting the field off the remaining data |
| FlowDecoder.DecodeRecord | src/flow.rs:1040-1128 | the field loop returns the record assembled from the split values together with its length, or nothing if the data ends early; FlowMeaning.RecordMeans says what that record is |
| FlowDecoder.DecodeRecords | src/flow.rs:973-990 | the record loop terminates and returns the records of all complete splits of the data set |
| FlowMeaning.LastIs | src/flow.rs:1064-1104 | the value that counts for a property is that of the last field that carries one of its elements, and there is none only if no field does |
| FlowMeaning.RecordMeans | src/flow.rs:1040-1128 | a record is returned if and only if the last 8 or 27 and the last 12 or 28 value have 4 or 16 octets and the last 4 value has 1 to 8; its ends, ports, protocol, counts times the sampling rate capped at 64 bits, flags, interfaces, next hop and host name are what the last fields say |
| FlowMeaning.RecordsMean | src/flow.rs:973-990 | the records of a data set are those that its splits mean, in order |
| FlowMeaning.BigEndianConcat | src/flow.rs:1155-1164 | numbers are read with the first octet as the most significant |
| FlowMeaning.BigEndianOne | src/flow.rs:1155-1164 | and one octet is its own value |
| FlowFraming.TemplatesRoundTrip | src/flow.rs:849-906 | template sets with any enterprise numbers and short padding are parsed into exactly the announced templates |
| FlowFraming.SetsRoundTrip | src/flow.rs:802-834 | the sets of a message body are found again, in order |
| FlowFraming.V9RoundTrip | src/flow.rs:781-784 | a NetFlow v9 message yields its domain and its sets |
| FlowFraming.IpfixRoundTrip | src/flow.rs:785-799 | an IPFIX message yields its domain and its sets, whatever follows it in the datagram |
| FlowMessages.ReadsAreBigEndian | src/flow.rs:1182-1192 | integers of 16 and 32 bits are read most significant octet first, and as 0 behind the end |
| FlowMessages.EnvelopeExactly | src/flow.rs:781-799 | a payload is taken for a message with a domain and a body if and only if it is the encoding of one: version 9 with a header of 20 octets, or version 10 with its length, whatever follows |
| FlowMessages.SetsExactly | src/flow.rs:802-834 | the sets read from a body are exactly those it is made of, up to where no complete set follows |
| FlowMessages.TemplatesWrote | src/flow.rs:849-882 | every template set is a list of announcements, with any ids and enterprise numbers, and something that does not start with another one |
| FlowMessages.TemplatesExactly | src/flow.rs:849-882 | the templates read from it are those of its announcements with ids from 256 on |
| FlowMessages.DatagramMeans | src/flow.rs:772-835 | a message makes the listener learn its template sets (id 0 or 2) and look up its data sets (ids from 256 on), in order; anything else makes it do nothing |
| FlowCollector.AppendAt | src/flow.rs:934-945 | a parked data set goes to the first packet with its id, or to a new packet at the end |
| FlowSystem.EvictsOldest | src/flow.rs:946-970 | the packets evicted are of the scope and older than every packet of it that stays; as many go as have to so that at most 100 stay |
| FlowSystem.EvictElsewhere | src/flow.rs:946-970 | and touches no packet of another scope |
| FlowSystem.EvictsOldestTemplates | src/flow.rs:889-904 | the templates evicted are of the scope and no younger than any of it that stays; as many go as have to so that at most 256 stay |
| FlowSystem.EvictTemplatesElsewhere | src/flow.rs:889-904 | and touches no template of another scope |
| FlowCaches.DrainConcat | src/flow.rs:800-835 | a listener's work can be done piece by piece |
| FlowCaches.DrainOut | src/flow.rs:800-835 | what a listener has already returned never influences what it does next |
| FlowCollector.Collector.EvictOldestTemplates | src/flow.rs:889-904 | the in-place eviction removes the oldest templates of the scope until 256 are left |
| FlowCollector.Collector.CacheTemplates | src/flow.rs:837-907 | the loop over a template set leaves the cache that sweeping, inserting and evicting template by template gives |
| FlowCollector.Collector.ReadFields | src/flow.rs:854-875 | the loop over field specifiers agrees with the parse of a template, including truncated ones |
| FlowCollector.Collector.ParkOrphan | src/flow.rs:931-971 | parking leaves the orphan cache that sweeping, appending and evicting gives |
| FlowCollector.Collector.DecodeDataSet | src/flow.rs:910-991 | looking a template up, decoding or parking has exactly the effect and the result of its critical sections; FlowExpiry.LookExactly says which templates are used and which dropped |
| FlowCollector.Collector.ReplayOrphans | src/flow.rs:993-1038 | replaying has exactly the effect and the result of its critical sections, re-buffering included |
| FlowCollector.Collector.ParseMessage | src/flow.rs:772-835 | one datagram changes the caches, reads the clock and returns the records exactly as the work list of its sets |
| FlowCollector.Collector.ParseAll | src/flow.rs:452-463 | the loop over a socket returns the records, and changes the caches, as the work lists of its datagrams one after the other |
| FlowExpiry.LookExactly | src/flow.rs:927-933 | a look-up decodes if and only if the template is cached and at most 30 minutes old, parks otherwise, and leaves exactly the templates that are no older |
| FlowExpiry.LearnDropsOld | src/flow.rs:847-887 | after a template set has been learned, each cached template is one that was there and at most 30 minutes old, or one of those just inserted |
| FlowExpiry.LookUsesLatest | src/flow.rs:910-933 | in every run from the start, a data set is decoded only with the fields inserted last under its key, at most 30 minutes before; otherwise it is parked |
| FlowExpiry.ForgottenIsParked | src/flow.rs:927-945 | if every insertion of its key is older, or there is none, the data set is parked |
| FlowExpiry.OutputIsYoung | src/flow.rs:910-991 | everything that a listener ever returns was decoded in this way |
| FlowExpiry.ReplayExactly | src/flow.rs:1002-1018 | a replay takes back exactly the data sets of its scope in packets at most 10 seconds old, and drops all older packets |
| FlowExpiry.ParkDropsOld | src/flow.rs:934-945 | after parking, each waiting packet is at most 10 seconds old or has just been parked |
| FlowExpiry.ExpiredExactly | src/flow.rs:934-1018 | what is accounted as expired is what waits in packets older than 10 seconds |
| FlowExpiry.ReplayedIsYoung | src/flow.rs:1002-1018 | in every run from the start, what a replay takes back was parked in that packet, and some of the packet at most 10 seconds before |
| FlowSystem.SectionConserves | src/flow.rs:847-1038 | one critical section moves data sets between work, waiting, decoded, expired and evicted and loses none |
| FlowSystem.Isolation | src/flow.rs:847-1018 | seen from another scope, or from the other format, a critical section only expires entries |
| FlowSystem.SectionKeepsLimits | src/flow.rs:889-904 | a critical section keeps at most 256 templates and 100 waiting packets per scope |
| FlowSystem.SectionKeepsCaches | src/flow.rs:847-1018 | a critical section keeps packet ids distinct and increasing within each scope |
| FlowSystem.SectionKeepsListener | src/flow.rs:847-1038 | a critical section of a listener keeps: no waiting data set of its format has a cached template, except while its replay is due |
| FlowSystem.SectionKeepsOther | src/flow.rs:847-1038 | it also keeps everything the other listener relies on |
| FlowSystem.InitiallySafe | src/flow.rs:365-366 | the empty caches satisfy the invariant and the balance |
| FlowSystem.Safety | src/flow.rs:847-1038 | every reachable state of every interleaving keeps the limits, the order of packets and the rule that nothing decodable is left waiting |
| FlowSystem.EverythingAccountedFor | src/flow.rs:927-1038 | in every run each data set received is, with its multiplicity, in exactly one of decoded, in flight, waiting, expired and evicted |
| FlowSystem.ExactlyOnce | src/flow.rs:927-1038 | from the start, with idle listeners: a data set is decoded, waiting, expired or evicted exactly as often as it was received |
| FlowIsolation.NonInterference | src/flow.rs:837-1038 | deleting from a run all events that are not of one format, or not of one scope, changes neither what the listeners have returned for it nor what they still have to do for it |
| FlowIsolation.ScopesDoNotInterfere | src/flow.rs:837-1038 | each exporter on the shared caches is served as by a collector of its own |
| FlowIsolation.ListenersDoNotInterfere | src/flow.rs:837-1038 | each listener on the shared caches returns what it would return on caches of its own |
| FlowOrder.DecodedExactly | src/flow.rs:910-1038 | in an idle collector that gave up no data set with an announced template, a listener has decoded exactly the data sets of its format with an announced template, each as often as received |
| FlowOrder.ArrivalOrderIrrelevant | src/flow.rs:772-1038 | two lossless runs over the same messages, in any order and interleaving, return the same records per listener |
| FlowLimits.WithinLimitsIsLossless | src/flow.rs:772-1038 | nothing decodable is lost if all templates are announced and worked off within the lifetime of an orphan, at most 100 messages of a scope come before one of their templates, no scope has more than 256 templates and the run is no longer than the lifetime of a template; later messages, messages decoded on arrival and data without any template do not count |
| FlowSequence.DrainIsSoloRun | src/flow.rs:772-835 | a listener working its list off alone is a legal run of the shared system |
| FlowSequence.ParkAll | src/flow.rs:931-971 | data sets that arrive before the template return nothing and wait in their order of arrival |
| FlowSequence.LearnAndReplay | src/flow.rs:811-820 | learning the template puts the waiting data sets in front of all later ones |
| FlowSequence.LearnThenReplay | src/flow.rs:811-820 | learning it once more renews it, and puts those that still wait in front |
| FlowSequence.DecodeAll | src/flow.rs:927-990 | as long as the template has not expired, each data set is decoded as it arrives, in order and however many there are, and what cannot be decoded goes on waiting without any hope |
| FlowSequence.DecodeSegments | src/flow.rs:811-820 | a template repeated before it expires decodes all data sets between its repetitions, without an end |
| FlowSequence.TemplatePositionIrrelevant | src/flow.rs:772-1038 | wherever a template set first arrives among any number of data sets and however often it is repeated, with at most 100 packets and no expired one waiting for it and no expiry between its repetitions, the decoded data sets and their order are the same |
| FlowDatagrams.TemplateMessageAnywhere | src/flow.rs:772-1038 | the same for datagrams: the records returned depend neither on where the template messages arrive nor on packet ids and the clock |
| FlowWire.TemplateIsMessage | src/flow.rs:802-882 | an encoded template message is parsed into exactly its announcement |
| FlowWire.BatchDecodes | src/flow.rs:975-990 | the records of one encoded data set are decoded in order |
| FlowWire.ExportedRecordsArrive | src/flow.rs:772-1038 | whatever an exporter encodes as records of one template, in data messages before, between and after its template messages, a listener that hears nothing else returns exactly those records in the order in which they were sent |
| FlowExporters.SectionAgrees | src/flow.rs:837-1038 | a critical section depends on the clock only through its own readings |
| FlowExporters.RunIsDrain | src/flow.rs:772-1038 | a run of one exporter is a listener working off what it receives, however its sections are spread over time |
| FlowExporters.ServedAsAlone | src/flow.rs:772-1038 | in any run of both listeners with any number of exporters, what is decoded for one of them is what a listener decodes that hears nothing but its datagrams |
| FlowExporters.ExportedRecordsArriveInTheCrowd | src/flow.rs:772-1038 | in any such run the records returned for an exporter are exactly the records it encoded, in the order in which they were sent, unless more than 100 of its packets wait or its packets or its template expire |
| FlowRing.Window | src/flow.rs:465-481 | the window satisfies the age, count and byte limits and is a suffix of the history |
| FlowRing.WindowIsLongest | src/flow.rs:465-481 | the window starts at the first flow from which on all are at most ten minutes old, at most 250,000, and take at most 536,870,912 bytes |
| FlowRing.WindowSuffices | src/flow.rs:465-481 | nothing the ring has dropped would be needed by a later window |
| FlowRing.Ring.Push | src/flow.rs:464-482 | after every push the ring is the longest suffix of all pushes that satisfies the three limits at that moment |
| FlowRing.Ring.EvictOverflow | src/flow.rs:472-481 | the eviction loop keeps the running total equal to the sum of the sizes and stops at the window |
| FlowRing.TotalBytes | src/flow.rs:472-472 | the total is the sum of the sizes of all entries |
| FlowAggregate.BucketsAreCappedTotals | src/db/repository.rs:344-355 | saturating at every addition equals saturating the exact totals once |
| FlowAggregate.SaturatedIsRefused | src/db/repository.rs:352-365 | a count that saturates is never written |
| FlowAggregate.TableIsRecorded | src/db/repository.rs:357-367 | the row of a bucket is the sum of the exact totals of the batches that got to write it, a whole number as long as it fits |
| FlowAggregate.BucketExactly | src/db/repository.rs:343-369 | a row is exact if and only if the total of its flows is at most 2^63-1 and every batch that has it got to write it |
| FlowAggregate.BatchingIrrelevant | src/db/repository.rs:343-369 | however the flows were batched and in whatever order the rows were written, the table holds their exact totals if and only if all of these are at most 2^63-1 |
| FlowAggregate.AnyOrderExactly | src/db/repository.rs:357-367 | a row is exact whatever the order of the writes if and only if its total fits and no batch that has it has any total that does not |
| FlowAggregate.LossDependsOnOrder | src/db/repository.rs:357-367 | an instance: a flow of 2^63 octets is lost, and takes a flow of another protocol along or not as the hash map lists them |
| FlowAggregate.SumIsRounded | src/db/repository.rs:361-364 | an instance: two batches of 2^63-1 octets each leave no whole number |
| FlowAggregate.Repository.CollectBuckets | src/db/repository.rs:344-355 | the first loop computes the saturating fold |
| FlowAggregate.Repository.UpsertAll | src/db/repository.rs:357-367 | the upserts are done in some order of the buckets up to the first that fails, and the result says whether all fitted |
| FlowAggregate.Repository.AggregateFlowRecords1m | src/db/repository.rs:343-369 | the table takes up the buckets of the batch in some order, up to one that does not fit; it succeeds if and only if all totals of the batch are at most 2^63-1; FlowMinutes states the rows in terms of the flows |
| FlowMinutes.SameRowExactly | src/db/repository.rs:343-350 | two flows share a row if and only if the first 16 characters of their time stamps and their protocols are equal, and the row starts with these characters and ":00Z" |
| FlowMinutes.TotalIsSums | src/db/repository.rs:343-355 | the total of a row is the sum of the octets, of the packets and of ones over the flows of its minute and protocol |
| FlowMinutes.RepresentsExactly | src/db/repository.rs:343-367 | a table is exact if and only if every row holds these sums and there are no other rows; the sums can be stored if and only if none exceeds 2^63-1 |
| FlowRollup.RunKeepsInv | src/flow.rs:387-482 | in every interleaving each record is delivered, late, dropped or pending, and only one of these |
| FlowRollup.AtMostOnce | src/flow.rs:395-418 | no record is delivered twice |
| FlowRollup.DeliveredExactly | src/flow.rs:395-418 | a record the watermark has passed was delivered if and only if it was neither evicted before nor pushed too late |
| FlowRollup.LateExactly | src/flow.rs:400-411 | records are pushed too late if and only if the clock had not advanced past the last cut at some push |
| FlowRollup.ExactlyOnce | src/flow.rs:395-418 | with an advancing clock, every record newer than the first watermark and not evicted in time is delivered exactly once when the watermark passes it |
| FlowRollup.TieLosesRecord | src/flow.rs:400-411 | a concrete run in which a push in the instant of the cut is never delivered |
| FlowRollup.TableHoldsDelivered | src/flow.rs:395-418 | after any interleaving the table holds the exact totals of the records delivered to the repository if and only if all of these are at most 2^63-1, and one row of it if and only if its total is and every batch that has it got to write it |
| FlowMinutes.TableSumsDelivered | src/flow.rs:387-418 | after any interleaving every row holds the sums over exactly the delivered flows of its minute and protocol, if and only if all these sums fit |
| FlowRollup.PushDropsExactly | src/flow.rs:465-481 | a push leaves the ring at the first record from which everything fits the limits, and what it takes from the roll-up thread is exactly what leaves the ring before its watermark has passed it |
| FlowRollup.BetweenIsPicked | src/flow.rs:402-410 | filtering the ring between watermark and cut picks the records that the protocol delivers |
| FlowRollup.Rollup.Once | src/flow.rs:395-418 | one roll-up moves the watermark to the cut, whether its writes fail or not, and upserts the records in between |
| SnmpWalk.SubtreeIsRun | src/snmp/walk_api.rs:150-190 | the instances strictly below a prefix are one contiguous run after the prefix |
| SnmpWalk.WalkWith | src/snmp/walk_api.rs:69-239 | the loop computes the walk that the replies and the gates determine; SnmpWalk.WalkStops says which status and reason each cause of its end has |
| SnmpWalk.WalkIsSafe | src/snmp/walk_api.rs:69-239 | whatever the agent returns: at most the allowed number of strictly increasing rows below the prefix, matching count and cursor, Complete only for an end of the information base or of the subtree, and always for these unless the agent passes them off as errors, Failed only without and Partial only with rows |
| SnmpWalk.WalkStops | src/snmp/walk_api.rs:69-239 | for every agent and every clock the rows are the answers, and status and reason are those of the cause that stopped the walk: Unsupported for a refusal, Cancelled for a cancellation, Complete at the end of the subtree, Partial at the limit, and for any other cause Failed without rows and Partial with some |
| SnmpWalk.LessExactly | src/snmp/walk_api.rs:208-239 | identifiers are ordered by the first arc in which they differ, a proper prefix first |
| SnmpWalk.FaithfulWalk | src/snmp/walk_api.rs:108-239 | against a faithful agent a Complete walk returns exactly the subtree, and an uninterrupted one is Complete if and only if the subtree is smaller than the limit |
| TemplateColumn.QueryTemplateColumn | src/snmp/client.rs:1549-1601 | the loop returns the column that the agent's replies give, or the error |
| TemplateColumn.FaithfulColumn | src/snmp/client.rs:1549-1601 | against a faithful agent: the rows before the first Null value keyed by suffix if fewer than 1024, else an error |
| TemplateColumn.ColumnIsSubtreeExactly | src/snmp/client.rs:1555-1600 | the result is exactly the subtree keyed by suffix if and only if it has fewer than 1024 rows and no Null value |
| TemplateColumn.NullEndsColumn | src/snmp/client.rs:1575-1579 | an instance: a subtree of one Null value gives an empty column |
| TemplateColumn.WalksAgree | src/snmp/client.rs:1549-1601 | within both limits and without Null values the two walks collect the same rows |
| LldpTables.MatchColumn | src/snmp/topology.rs:557-563 | the first column that is a proper prefix of the name is matched, with the rest as index, and none is matched only if there is no such column |
| LldpTables.CellsAgree | src/snmp/topology.rs:325-351 | a cell whose rows agree does not depend on their order |
| LldpTables.InterfaceMap | src/snmp/topology.rs:497-520 | the loop leaves, per index, the values of its four columns |
| LldpTables.LocalPortMap | src/snmp/topology.rs:470-495 | the loop leaves, per port, the values of its three columns |
| LldpTables.RemoteRowMap | src/snmp/topology.rs:325-351 | the loop leaves, per remote row key, the values of its five columns |
| LldpTables.AddressMap | src/snmp/topology.rs:355-367 | the first usable address of each remote row key is kept |
| LldpTables.ResolveLocalPort | src/snmp/topology.rs:522-547 | a local port resolves to an interface if and only if exactly one matches it; LldpMeaning.ResolvesExactly says which matches |
| LldpTables.NormalizeLldpNeighbors | src/snmp/topology.rs:319-392 | one neighbor per remote row key, joined with its local port, interface and address |
| LldpMeaning.CellsByName | src/snmp/topology.rs:325-351 | a cell holds the value of the last row whose name starts with its column and key |
| LldpMeaning.ResolvesExactly | src/snmp/topology.rs:522-550 | a local port resolves to the only interface whose alias, physical address or name is its id, as its subtype 1, 3 or 5 says, or whose name or description is its description; to none if there is none or more than one |
| LldpMeaning.GivesExactly | src/snmp/topology.rs:581-624 | a management address row gives a key the address in its value, or else the one in its index behind type and length |
| LldpMeaning.AddressIsFirst | src/snmp/topology.rs:355-367 | a key has the first address that any row gives it |
| LldpMeaning.TextSpells | src/snmp/topology.rs:569-579 | a text is the octets without the NULs on both sides, if any are left, and any other value but none as it is |
| LldpMeaning.NeighborMeans | src/snmp/topology.rs:319-392 | there is a neighbor for every key of three arcs with a remote row; its remote fields are the last values of their columns, its address the first given, and its local index and name those of the interface that its local port alone names |
| LldpQuality.RemoteRowQuality | src/snmp/topology.rs:176-250 | the counters are the numbers of rejected keys, incomplete keys, bad identities and bad ports |
| LldpQuality.CountBadAddresses | src/snmp/topology.rs:98-117 | the counter is the number of distinct malformed address rows of known remote rows |
| LldpQuality.MalformedLocalRows | src/snmp/topology.rs:252-291 | the counter is the number of distinct malformed indexes of referenced ports |
| LldpQuality.MalformedMeans | src/snmp/topology.rs:262-288 | an index is malformed if and only if one of its rows has a wrong index or value, or two proper rows fill the same cell |
| LldpFaults.RejectedExactly | src/snmp/topology.rs:187-198 | a row is rejected if and only if its index has not four arcs, or local port or remote index 0 |
| LldpFaults.RemoteFaults | src/snmp/topology.rs:199-248 | a key is counted as a bad identity, a bad port or incomplete if and only if its chassis id, port id, host name or the names of its rows are not as IEEE 802.1AB has them |
| LldpFaults.AddressFaults | src/snmp/topology.rs:98-117 | an address row is counted if and only if its index does not tell a whole address of a known remote row |
| LldpFaults.PortFaults | src/snmp/topology.rs:252-291 | a key of the local port table is counted if and only if a remote row refers to it and a row of it is malformed or two have the same name |
| LldpFaults.InterfaceFaults | src/snmp/topology.rs:252-291 | a key of the interface tables is counted if and only if a row of it is malformed or two have the same name |
| LldpQuality.NormalizeLldpNeighborsWithQuality | src/snmp/topology.rs:80-143 | the report accompanies the neighbors of the plain normalizer and counts those without a local interface |
| LldpComplete.NoDuplicates | src/snmp/topology.rs:199-206 | without flagged duplicates no two rows of the remote table have the same name |
| LldpComplete.SameCells | src/snmp/topology.rs:325-351 | where all rows are well indexed, the normalizer and the report see the same value in every cell |
| LldpComplete.CompleteMeans | src/snmp/topology.rs:66-69 | a complete report means that each of its counters stands for an empty set |
| LldpFaults.CompleteExactly | src/snmp/topology.rs:66-143 | a report is complete if and only if there are no remote rows, or no row of the four tables has a fault and every neighbor has a local port that names exactly one interface |
| LldpComplete.CompleteLosesNothing | src/snmp/topology.rs:80-143 | a complete report means exactly one neighbor per distinct remote row key, each with a resolved interface, valid chassis and port ids, an address if and only if an address row carries its key, and a host name if and only if a system name row of its key carries that nonempty, well-formed text |
| LldpComplete.CompleteIgnoresOrder | src/snmp/topology.rs:319-392 | and the neighbors do not change when the remote, local port or interface rows are permuted |
| LldpComplete.AddressesIgnoreOrderExactly | src/snmp/topology.rs:355-367 | the order of management address rows is irrelevant to the table of addresses if and only if no key has two addresses |
| LldpComplete.NeighborsIgnoreAddressOrderExactly | src/snmp/topology.rs:80-143 | in a complete report the neighbors are the same under every permutation of the management address rows if and only if no remote row has two different addresses |
| LldpWitness.CompleteYetOrdered | src/snmp/topology.rs:355-367 | an instance: a complete report whose one neighbor has an IPv4 and an IPv6 address and depends on their order |
| Dom.EntityPort | src/snmp/dom.rs:78-94 | the climb returns the alias of the nearest aliased entity among the first 32 of the containment chain, else none |
| Dom.VisitedCheckIsRedundant | src/snmp/dom.rs:81-84 | a climb without memory of visited entities gives the same answer on every graph, cyclic or not |
| Dom.CollectAliases | src/snmp/dom.rs:97-120 | the loop computes the fold of the alias rows |
| Dom.AliasesAreAgreements | src/snmp/dom.rs:97-120 | an entity is aliased if some row maps it, and its port is known if and only if all its rows agree |
| Dom.AliasesIgnoreOrder | src/snmp/dom.rs:97-120 | the aliases do not depend on the order of the rows |
| Dom.JoinReadings | src/snmp/dom.rs:210-229 | every port with a reading, and no other, gets each metric that has exactly one reading, and no value for the others |
| Dom.JoinIgnoresOrder | src/snmp/dom.rs:210-229 | the result does not depend on the order in which readings were found |
| Dom.OnlyFromOne | src/snmp/dom.rs:210-220 | a metric of a port has a value if and only if there is exactly one reading of it |
| DomTable.UniqueMatch | src/snmp/dom.rs:159-172 | a name that matches exactly one metric matches no other |
| DomTable.OneMetricPerSensor | src/snmp/dom.rs:145-172 | a sensor never counts for two metrics, even when metrics share its column |
| DomTable.AliasTable | src/snmp/dom.rs:97-120 | the loop over the alias column finds the entities with an alias, and a port for those on which all rows agree |
| DomTable.RowReading | src/snmp/dom.rs:124-208 | one row passes the filters by value, index, name, status, type, port, scale and precision, or is skipped |
| DomTable.CollectReadings | src/snmp/dom.rs:121-209 | the loop over all rows of all metrics finds each row that contributes, once, and no other |
| DomTable.Join | src/snmp/dom.rs:96-230 | a port is listed if and only if some row of the walked columns contributes to it, and a metric of it has a value if and only if exactly one row contributes to that, and then it is that row's |
| DomTable.JoinIsDetermined | src/snmp/dom.rs:96-230 | the walked columns determine the whole result, in whatever order hash maps are traversed |
| DomMeaning.PortExactly | src/snmp/dom.rs:78-94 | an entity belongs to a port if and only if a chain of at most 32 entities, each contained in the next, leads to the first one with an alias, and that is the port |
| DomMeaning.AliasRowExactly | src/snmp/dom.rs:97-112 | a row maps an entity to a port if and only if its index has two arcs and its value is the ifIndex instance of that port |
| DomMeaning.WattsExactly | src/snmp/dom.rs:176-196 | a sensor measures the number whose decimal point is moved by its scale (RFC 3433) and back by its precision, if positive |
| DomMeaning.SensorExactly | src/snmp/dom.rs:137-172 | a row is a sensor of a metric if and only if its status is 1, its type 6, and its name contains a pattern of this metric and of no other, and neither lane nor channel |
| DomMeaning.ContributesExactly | src/snmp/dom.rs:121-209 | a row contributes a reading to a port if and only if the walked columns give it |
| Decimal.ParseU32Exact | src/snmp/template.rs:319-322 | digit by digit parsing with overflow checks fails exactly for values above 32 bits |
| Decimal.PrintOfValue | src/snmp/client.rs:2210-2215 | printing the value of a digit string gives it back if and only if it has no leading zero |
| Decimal.PaddedValue | src/device/metadata.rs:105-111 | a padded number keeps its value and gets as many zeros in front as its width needs |
| OidText.ParseIsSpelling | src/snmp/template.rs:311-326 | the parser accepts exactly the dotted decimal spellings of valid identifiers and returns what they spell |
| OidText.ParseOfPrint | src/snmp/client.rs:2210-2215 | every identifier that meets the length and first-arc rules survives printing and parsing |
| OidText.ParsePrintParse | src/snmp/client.rs:1527-1537 | parsing an accepted text, printing and parsing again gives the same arcs |
| OidText.PrintOfParse | src/snmp/client.rs:1527-1537 | an accepted text is printed back unchanged if and only if it has no leading dot and no leading zeros |
| OidText.PrefixComparesParts | src/snmp/template.rs:618-625 | the textual prefix test holds if and only if the parts of the prefix are the first parts of the identifier |
| OidText.PrefixIsArcPrefix | src/snmp/template.rs:618-625 | on printed identifiers it is the prefix order of the arcs |
| TemplateRegistry.Load | src/snmp/template.rs:633-712 | the merge loop leaves the bundled templates with their overrides, followed by the new user templates in file order |
| TemplateRegistry.MergedIsWinners | src/snmp/template.rs:664-711 | selectors stay unique, and each stands for its first user file, or else for its bundled template |
| TemplateRegistry.EqualArcsEqualSelectors | src/snmp/template.rs:714-727 | two selectors that match one identifier with equally many arcs are equal |
| TemplateRegistry.EnterpriseMatches | src/snmp/template.rs:714-745 | a template without a prefix matches exactly the identifiers that start with 1.3.6.1.4.1 and its enterprise number, if that is not 0 |
| TemplateRegistry.PrefixMatches | src/snmp/template.rs:714-745 | a template with a prefix matches exactly the identifiers that start with it, with any dots around it |
| TemplateRegistry.SelectIsUniqueLongest | src/snmp/template.rs:714-727 | the choice is the unique longest match, and the first template if nothing matches |
| TemplateRegistry.SelectIgnoresOrder | src/snmp/template.rs:714-727 | the order of the registry does not decide between matches |
| TemplateRegistry.LoadThenSelect | src/snmp/template.rs:633-727 | a loaded registry answers with the winner of the longest matching selector that any bundled template or user file offers |
| Layout.Adjacency | frontend/src/pages/topology.ts:73-77 | the adjacency lists hold exactly the undirected links between known nodes |
| Layout.BreadthFirst | frontend/src/pages/topology.ts:80-85 | exactly the nodes connected to the seed get a depth, and it is their shortest hop distance |
| Layout.Seed | frontend/src/pages/topology.ts:78-78 | the seed is the first marked node, or without one the node with the seed address, or else the first node |
| Layout.Layers | frontend/src/pages/topology.ts:86-87 | each occupied level lists its nodes in node order; unconnected nodes are on level 1 |
| Layout.TopologyState.PlaceLayer | frontend/src/pages/topology.ts:89-96 | one layer is written over the positions, and no other position changes |
| Layout.TopologyState.ComputeLayout | frontend/src/pages/topology.ts:72-97 | the positions become the layout by hop distance from the seed; without nodes they stay |
| Layout.LayerPlacesDistinct | frontend/src/pages/topology.ts:90-95 | two nodes of one layer never share a place |
| Layout.SharedPlaceExactly | frontend/src/pages/topology.ts:94-94 | nodes of different layers share a place if and only if they are 16k layers and 25k rows apart for a positive k and equally far from the middle of their rows |
| Layout.LevelOccupied | frontend/src/pages/topology.ts:80-87 | every level up to that of a connected node has a node |
| Layout.NoOverlap | frontend/src/pages/topology.ts:72-97 | no two nodes of one layer, and in a diagram of at most 1292 nodes with distinct ids no two nodes at all, are drawn in one place |
| LayoutMeaning.PerRowExactly | frontend/src/pages/topology.ts:90-90 | a row has the least width of at least four whose square is at least twice the size of the layer, or the whole layer if that is less |
| LayoutMeaning.PlacesInRow | frontend/src/pages/topology.ts:91-95 | layers are 150 apart and rows 96; in a row the nodes are 200 apart and symmetric about the middle |
| LayoutMeaning.DiagramMeans | frontend/src/pages/topology.ts:80-97 | every node stands in the layer of all nodes with its hop distance from the seed, or in layer 1 if there is no path |
| LayoutOverlap.OnePlace | frontend/src/pages/topology.ts:90-94 | the last of 1276 nodes of a layer stands where the only node of the sixteenth layer after it stands |
| LayoutOverlap.Overlap | frontend/src/pages/topology.ts:72-97 | an instance: a diagram of 1293 nodes with distinct ids, laid out as the program does, in which two nodes share a place |
| WebSocket.MaskTwice | src/diagnostics.rs:83-87 | masking is its own inverse |
| WebSocket.MaskedBits | src/diagnostics.rs:83-87 | masking flips the bits of the i-th octet where the octet of the key with number i modulo 4 has ones |
| Utf8Meaning.ValidExactly | src/diagnostics.rs:91-93 | octets are text if and only if they encode Unicode scalar values |
| Utf8Meaning.SpaceAtStartExactly | src/flow.rs:1171-1180 | white space is what encodes a scalar value with the Unicode property White_Space |
| Utf8Meaning.SpaceAtEndExactly | src/flow.rs:1171-1180 | at the end as well as at the front |
| WebSocket.Connection.ReadText | src/diagnostics.rs:46-94 | the reader returns and consumes what the stream function says, on every stream |
| WebSocket.Connection.Unmask | src/diagnostics.rs:83-87 | the in-place loop masks every octet with its key octet |
| WebSocket.Connection.Send | src/diagnostics.rs:96-115 | sending appends the text frame in the length form of section 5.2 |
| WebSocket.ProgramIsStandard | src/diagnostics.rs:53-69 | where no 16-bit length of 127 occurs, the reader reads every stream as section 5.2 does |
| WebSocket.StandardRoundTrip | src/diagnostics.rs:46-94 | a reader that follows section 5.2 reads back every text frame within the limit, that of 127 octets included |
| WebSocket.FrameRoundTripExact | src/diagnostics.rs:46-115 | a text frame, masked or not, is read back with exactly the following stream left if and only if its payload has at most 1,048,576 octets and not exactly 127 |
| WebSocket.LettersMisread | src/diagnostics.rs:56-71 | an instance: 127 times the letter a is refused as too large |
| WebSocket.CloseFrame | src/diagnostics.rs:88-90 | a close frame, within the size limit and without length 127, is consumed and ends the conversation |
| WebSocket.ConversationRoundTrip | src/diagnostics.rs:46-115 | texts sent one after the other are read one after the other |
| RenamePlan.Plan | src/device/metadata.rs:69-123 | a plan exists if and only if the request is acceptable, a refusal names a true reason, and the plan numbers the devices in order |
| RenamePlan.SortSorts | src/device/metadata.rs:98-100 | sorting orders by address and id and keeps every device |
| RenamePlan.NameIsClean | src/device/metadata.rs:112-115 | a generated name is never blank and is invalid only if it is too long |
| RenamePlan.PlanIsPermutation | src/device/metadata.rs:82-123 | a plan covers exactly the requested devices, each once and with its own address |
| RenamePlan.PlanIsConsecutive | src/device/metadata.rs:78-81 | the numbers are consecutive from the requested start and fit 32 bits; a name is the prefix, the number with its zeros, and the suffix |
| RenamePlan.PlanIsOrdered | src/device/metadata.rs:98-100 | in address order the items ascend by address and id, otherwise they keep the order of the request |
| RenamePlan.PlanNamesDistinct | src/device/metadata.rs:105-111 | no two devices get the same name |
| Alerts.MetricAlertTracker.Transitions | src/alert/rules.rs:62-85 | a poll returns the events whose severity is not the recorded one and leaves its own records for its device only |
| Alerts.StateIsPrevious | src/alert/rules.rs:80-83 | in any interleaved run the record of a key is what its device's previous poll recorded |
| Alerts.RecordedExactly | src/alert/rules.rs:70-80 | a record holds the severity of the last event of its device, interface and kind; events of others never share it |
| Alerts.EmittedIsNews | src/alert/rules.rs:62-85 | in any interleaved run each poll emits exactly its news, in order |
| Alerts.NewsExactly | src/alert/rules.rs:62-85 | an event is emitted if and only if its severity differs from what its device's previous poll recorded for the same key, absence included |
| Alerts.OtherDevicesDoNotMatter | src/alert/rules.rs:62-85 | a poll emits the same alerts as if only its own device had ever been polled |

## Left out

- Sockets, threads, sleeps, BER decoding and SNMP sessions: agents are functions, clocks are sequences of readings, and
  code under one lock is one step.
- Lock poisoning: the source then skips the step; the model has no panicking threads.
- NetFlow v5 and sFlow: the same loops with less state.
- Fields of flow records that do not come from the data set (exporter, observation time), and the text form of
  addresses.
- Time stamps of flow records are taken to be ASCII text, so that 16 octets are 16 characters.
- Packet ids are unbounded numbers; the source counts them in 64 bits.
- Eviction of equally old templates: the source leaves the order to its hash map, the model takes the smaller template
  id.
- Template withdrawal (section 8.1 of RFC 7011): as in the source, a template without fields is cached like any other.
- SQLite errors other than parameters that do not fit, and the value of a sum that has become a floating-point number.
- Texts (host names of LLDP rows and of flow records) are kept as octets, trimmed as in the source; malformed UTF-8 in
  them is not replaced.
- The list of neighbors is a map by remote row key; the source lists its values in the order of the keys.
- The interface and local port tables are keyed by one-arc indexes.
- The CDP normalizer and its report: the same joins with fewer columns.
- Floating point in the optical power join: numbers are real, so none is infinite; how a value reads as text and the
  logarithm are functions.
- Parsing and validating template files: a file is a template or an error; bundled templates are assumed to have
  distinct selectors.
- IP address parsing in the rename plan: a function that ranks addresses.
- Node ids that name members of JavaScript's object prototype.
- WebSocket handshakes, and read errors other than the end of the stream.
- Health scores, bandwidth, error rates, thresholds and the delivery of alerts.
- Exporters with more than one template set, in the results on the sequence of the output; the results on multisets
  have any number of them.
- TemplateRegistry.SelectIgnoresOrder: says nothing about the fallback to the first template, which does depend on the
  order.
- FlowOrder.ArrivalOrderIrrelevant: compares the records as multisets, because the order of the output follows the
  order of arrival; FlowDatagrams.TemplateMessageAnywhere compares sequences for one template message.
