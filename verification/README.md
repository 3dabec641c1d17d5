# Vanguard in Dafny

A model of the parts of the Vanguard DNS server whose correctness is hard to see from one
function, with proofs about every input, every run or every reachable state.

| modules | what they model |
|---|---|
| `Dns`, `Runs`, `Lists` | names, records, uint32 serials; runs of a state machine; linked lists |
| `ZoneModel`, `ZoneEffects`, `ZoneInvariants`, `ZoneLookup` | the authoritative zone as a value, what operations do and keep, lookup |
| `ZoneTransactions`, `ZoneUpdates`, `BatchRecords`, `ZoneQueries` | transactions over a live zone, dynamic update, the records updates and loads leave, query processing |
| `MemoryZones`, `DynamicZones`, `UpdateHandler` | the same zone on the heap: shared RRset objects, copied nodes, updates in place |
| `Ixfr`, `XfrMachines`, `XfrZones`, `IxfrRecords`, `AxfrZones`, `XfrDriver`, `XfrRunner` | the transfer machines, their language, the records they publish, the runner on the heap zone |
| `LruLists`, `MessageCache` | the message cache and the list of entries it refines |
| `NameServers`, `NsasCache` | the recursor's name servers and zone cache |
| `CNameChains`, `CNameHandler` | CNAME chasing |
| `Prober`, `RoundRobin`, `RateLimit`, `Dns64` | forwarder probing and selection, rate limiting, IPv6 synthesis |

Where the source changes state in place, a class does too, and each of its methods is proved
equal to a function on values; the theorems are about those functions. Where the source only
computes, there are functions and lemmas.

## How to read the model

- Names are label sequences listed from the root, already case-folded; a superdomain is a prefix.
- The domain tree is a map from names to nodes. What the tree library decides by itself is a
  parameter and every theorem holds for all its values: `split`, the empty nodes an insertion may
  create; `drop`, the nodes a removal may prune (empty, nothing below them); `overwrites`, whether
  inserting an existing zone replaces it. A search visits flagged nodes above the name from the
  top, ends at the name or at its closest existing node, and "last comparison is superdomain"
  means that some node exists below the name.
- The state-machine library is a partial map from event and state to state; a "before" callback
  can cancel an event; a self-loop runs the "after" callback and reports "no transition".
- A nil pointer stored in a map is `None` (or `null` on the heap); a panic is an explicit outcome.
- The clock is a parameter `now`; one call reads it once. Random numbers do not appear.
- The resolver below the CNAME handler, the hash of a name, the order of notifies, probes and
  forwarder failures are arbitrary functions or event sequences.
- Queries reorder the records of an RRset; only `SerialNeverDrops` looks at a property this can touch.
- RRset objects handed to an update are not the live zone's own SOA object; those of a transfer are
  fresh from the wire. SOA RRsets from the wire hold SOA records.

## What the code does not do

Each line is a lemma or method below; the model follows the code.

- A class ANY delete of the apex NS set without rdata passes the guard, Commit refuses the zone,
  and the live serial stays raised (`NSDeleteLeaksSerial`); `AllOrNothingExactly` gives the exact
  condition. Followed by a delete of the whole apex it publishes a nil NS pointer (`NilNSPublished`).
- An apex SOA RRset of several records is published and leaves no serial to raise: the next update
  that succeeds without an SOA panics with the zone locked (`TwoSOAsCrashNext`).
- Deleting the NS set of a delegation leaves the node flagged, and lookups below it panic
  (`DeletedCutPanics`, exact condition in `CutPanicExactly`, all lookups in `DefaultFindByPath`).
- A glue-ok lookup of a nested delegation point gives its own NS set, not the topmost one
  (`GlueOkTopmostExactly`).
- IXFR accepts an answer broken off after a data record, and never compares the last serial with
  the serial its deltas lead to (`TruncatedAccepted`, `EncodingAccepted`).
- IXFR deletes whole types where a delta names single records: deleting one of two A records publishes
  neither (`PartialDeleteDropsType`). A delta that replaces the whole apex NS set keeps the old records,
  since the refused delete is ignored (`WholeNSReplacementKeepsOld`). `IxfrMeantExactly` says when the
  published records are those section 4 of RFC 1995 asks for.
- On a zone whose apex SOA RRset has several records every IXFR panics at its first serial
  (`IxfrPublishesDeltas`), and queries can lower the serial (`RotationLowers`).
- An IXFR that replaces the apex NS set over two deltas panics: the first delete drops the whole set
  and the second has nothing to compare with (`NSReplacementCrashes`; `CrashesExactly` is the condition).
- A refused IXFR is rolled back, but serial bumps have already reached the live zone through the
  shared SOA object (`SerialLockstep`, `RollBackInvisible`).
- AXFR does not notice a missing closing SOA (`AxfrAcceptedExactly`), and adds to the live zone instead
  of replacing it, so records the answer lacks survive (`AddsGrow`, `AxfrReplacesExactly`).
- A notify that returns early after listing the zone keeps it from ever being transferred again
  (`EarlyReturnBlocksForever`).
- Memory enforcement subtracts expired zones twice and panics when more zones expired than the
  maximum (`EnforceMemoryLimit`); a replaced zone's old list element stays (`AddZone`).
- At the limit 2^32 - 1 the rate limiter allows everything (`UnlimitedAtMaximum`).
- With a /32 prefix octet 8 comes from the suffix, although section 2.2 of RFC 6052 wants it zero
  (`RoundTrip`).

## Model

| member | source | states |
|---|---|---|
| `ZoneInvariants.NodeInvariants` | resolver/auth/zone/memoryzone/memoryzone.go:223-478 | after every sequence of adds, deletes and bumps, refused or not, a node with CNAME holds nothing else and a node is wildcard-marked if and only if its `*` child holds data |
| `ZoneInvariants.AddKeeps` | resolver/auth/zone/memoryzone/memoryzone.go:223-313 | an add keeps every zone invariant: entries filed under their own name and type, CNAME alone, cut flags only below the apex, marks sound and complete |
| `ZoneInvariants.DeleteNodeKeeps` | resolver/auth/zone/memoryzone/memoryzone.go:348-396 | removing a node, with whatever the tree prunes, keeps the zone invariants |
| `ZoneInvariants.EraseDomainKeeps` | resolver/auth/zone/memoryzone/memoryzone.go:422-443 | deleting a domain keeps the invariants, also at the apex where absent SOA and NS entries become nil |
| `ZoneInvariants.ApplyKeeps` | resolver/auth/zone/memoryzone/memoryzone.go:223-514 | every operation keeps the zone invariants |
| `ZoneInvariants.WithSerialLaws` | resolver/auth/zone/memoryzone/memoryzone.go:502-514 | writing the serial is read back, overwritten by the next write, and undone by writing the old one |
| `ZoneEffects.AddElsewhere` | resolver/auth/zone/memoryzone/memoryzone.go:223-285 | an add changes nothing but its own name and type, and no contents at all when refused |
| `ZoneEffects.AddStores` | resolver/auth/zone/memoryzone/memoryzone.go:233-272 | what a successful add stores: exactly old and new records with the new TTL; a CNAME or first RRset as given; an SOA only over a smaller serial |
| `ZoneEffects.AddRefusesExactly` | resolver/auth/zone/memoryzone/memoryzone.go:287-313 | the exact cause of each refusal: wildcard NS, out of zone, CNAME beside other data, all records and TTL already there |
| `ZoneEffects.DeleteRefusesExactly` | resolver/auth/zone/memoryzone/memoryzone.go:357-478 | for both deletes of a type, exactly when each outcome comes: out of zone, apex SOA, the whole apex NS set named, nothing of the type there, the nil NS set that panics, and done in every other case |
| `ZoneEffects.DeleteDomainRefusesExactly` | resolver/auth/zone/memoryzone/memoryzone.go:422-443 | a domain delete is done if and only if the name is in the zone and holds data; the two refusals are told apart |
| `ZoneEffects.DeleteRRsetEffect` | resolver/auth/zone/memoryzone/memoryzone.go:398-420 | takes away exactly that type, whatever rdatas came with it |
| `ZoneEffects.DeleteRrEffect` | resolver/auth/zone/memoryzone/memoryzone.go:445-478 | leaves exactly the records not named, and no RRset without records |
| `ZoneEffects.DeleteDomainEffect` | resolver/auth/zone/memoryzone/memoryzone.go:422-443 | takes away all types of the name and nothing else; at the apex SOA and NS entries stay as found |
| `ZoneEffects.AddThenDelete` | resolver/auth/zone/memoryzone/memoryzone.go:223-420 | deleting what was just added under a new type restores the contents |
| `ZoneEffects.DeleteThenAdd` | resolver/auth/zone/memoryzone/memoryzone.go:223-478 | deleting records and adding them back restores the set of records |
| `ZoneLookup.CutPanicExactly` | resolver/auth/zone/memoryzone/memoryzone.go:77-94 | the zone-cut panic happens if and only if a flagged node the search reaches holds no NS: the topmost flagged one by default, any for glue-ok |
| `ZoneLookup.NoWildcardPanic` | resolver/auth/zone/memoryzone/memoryzone.go:126-155 | the "wildcard isn't correct marked" panic is unreachable in every zone with the invariants |
| `ZoneLookup.AddsKeepCuts` | resolver/auth/zone/memoryzone/memoryzone.go:223-285 | in a zone built by adds alone a non-apex node is flagged exactly when it holds NS |
| `ZoneLookup.DefaultFindByPath` | resolver/auth/zone/memoryzone/memoryzone.go:100-201 | default find on every zone the operations can build, flags stale or not: the topmost flagged node above the name gives its NS set, or a panic if it lost it; without one the name's own flag and NS set decide, and a name flagged without NS, like any other, gets the one answer the contents allow |
| `ZoneLookup.GlueOkFindByPath` | resolver/auth/zone/memoryzone/memoryzone.go:100-201 | the same for glue-ok find: any stale flag above the name is a panic; a node is answered from itself; a name without node gets the topmost NS set or the one answer the contents allow |
| `ZoneLookup.ExactAnswer` | resolver/auth/zone/memoryzone/memoryzone.go:164-200 | a node that lost its NS set is answered by its contents, although it is still flagged |
| `ZoneLookup.DefaultFindAtCuts` | resolver/auth/zone/memoryzone/memoryzone.go:100-201 | where flags and NS sets agree, as in every zone built by adds: a default find at or below a delegation gives the topmost NS set whatever the type; elsewhere the one answer the contents of the zone allow (section 4.3.2 of RFC 1034): the type, else the CNAME, of the name or of the `*` at its closest node, else NXRRset for a name that exists, else NXDomain |
| `ZoneLookup.GlueOkFindAtCuts` | resolver/auth/zone/memoryzone/memoryzone.go:100-201 | where flags and NS sets agree: a glue-ok find gives an existing delegation point its own NS set, a name without a node below a delegation the topmost NS set, and every other name the one answer the contents allow |
| `ZoneLookup.OneAnswer` | resolver/auth/zone/memoryzone/memoryzone.go:164-200 | the contents of a zone allow one answer only, so the two results above determine the lookup |
| `ZoneLookup.PartialAnswer` | resolver/auth/zone/memoryzone/memoryzone.go:111-157 | for a name without a node the wildcard mark of the closest node decides exactly as the data at its `*` does |
| `ZoneLookup.GlueOkTopmostExactly` | resolver/auth/zone/memoryzone/memoryzone.go:84-93 | below a delegation a glue-ok find gives the topmost NS set if and only if the name has no node or is that delegation point |
| `ZoneLookup.AddOnlyLookup` | resolver/auth/zone/memoryzone/memoryzone.go:77-201 | over every add sequence: flags exact, no find panics on a cut, every default find at or below a delegation gives the topmost NS set |
| `ZoneLookup.DeletedCutPanics` | resolver/auth/zone/memoryzone/memoryzone.go:398-420 | after the NS set of a delegation is deleted, with no other cut on the path, a default find below it panics if and only if the node is still in the tree; other data there, or data below, keeps it there |
| `ZoneLookup.ApexFound` | resolver/auth/zone/memoryzone/memoryzone.go:319-335 | on a zone that passes validation, find of SOA or NS at the apex succeeds |
| `ZoneTransactions.LiveZonesArePublishable` | resolver/auth/zone/memoryzone/dynamiczone.go:19-108 | over every interleaving of loads, transactions and operations the live zone keeps the invariants and is either empty or maps SOA and NS at the apex |
| `ZoneTransactions.PublishableForever` | resolver/auth/zone/memoryzone/dynamiczone.go:19-31 | once publishable, the live zone stays so over every continuation |
| `ZoneTransactions.OpenTransactionIsIsolated` | resolver/auth/zone/memoryzone/dynamiczone.go:190-220 | no operation sequence on an open transaction changes the live zone, except that each bump through the shared SOA moves the apex serial by one |
| `ZoneTransactions.WholeTransaction` | resolver/auth/zone/memoryzone/dynamiczone.go:19-39 | Begin, any operations, then: Commit publishes the copy with every operation in it if and only if it holds apex SOA and NS; RollBack or a refused Commit leaves the live zone as it was but for a serial moved by at most the number of raises, and exactly as it was without any |
| `ZoneTransactions.InTxKeeps` | resolver/auth/zone/memoryzone/dynamiczone.go:199-220 | every operation in a transaction keeps the invariants of live zone and copy and the truth of "they share the SOA" |
| `ZoneTransactions.MovedStep` | resolver/auth/zone/memoryzone/memoryzone.go:502-514 | k bumps through the shared SOA are one write of the serial plus k, wrapping, and change nothing else |
| `ZoneUpdates.UpdateRefines` | resolver/auth/update.go:33-81 | the handler with its transaction and shared SOA ends as the plain fold of the batch over a value does; what the fold does with each record is `BatchRecords.RecordEffect` |
| `BatchRecords.RecordEffect` | resolver/auth/update.go:46-57 | what a record that goes through does at every name and every type but SOA, by class and type: class IN joins its set or replaces a CNAME; type ANY empties the name but for the apex NS set; class ANY drops the type; any other class leaves exactly the records not named, and no type without records |
| `BatchRecords.PublishedRecords` | resolver/auth/update.go:44-80 | at every name and every type but SOA a published batch leaves exactly what its records say, one after the other |
| `BatchRecords.UpdateEndsExactly` | resolver/auth/update.go:44-80 | how an update ends: the first refusal other than "no effect" rejects the batch with its own error; a batch of nothing but wildcard NS records does nothing; any other is committed, its serial raised if and only if no record is an SOA, and is published, refused or fatal by what the apex then holds |
| `BatchRecords.PublishedSOA` | resolver/auth/update.go:71-80 | the apex SOA of a published batch is the last newer one it brings or, when it brings none, the old one with the next serial |
| `BatchRecords.PassedOver` | resolver/auth/update.go:59-68 | a record is passed over as having no effect if and only if it adds an NS at a wildcard |
| `ZoneUpdates.AllOrNothingExactly` | resolver/auth/update.go:44-80 | for every batch on every live zone: one that is not published leaves contents and serial unchanged if and only if it does not drop the apex NS set of a zone with a serial; one that does leaves the serial one higher |
| `ZoneUpdates.PublishedSerial` | resolver/auth/update.go:71-80 | a published batch without SOA records raises the serial by exactly one; any published batch leaves it no lower, short of wrap-around; a serial that can be raised again is left if and only if the last SOA record that took effect came alone in its RRset |
| `ZoneUpdates.SafeUpdate` | resolver/auth/update.go:33-81 | from a sound zone a batch without class ANY apex NS delete is published whole or changes nothing and leaves a sound zone; it panics if and only if records went through, none an SOA, and the zone's apex SOA is not a single record |
| `ZoneUpdates.SerialNeverDrops` | resolver/auth/update.go:33-81 | over every sequence of such batches, with queries reordering records in between, the zone stays sound, and as long as every zone on the way has a single SOA record the serial never drops until it wraps |
| `ZoneUpdates.RotationLowers` | resolver/auth/zone/memoryzone/dynamiczone.go:177-181 | with two SOA records a query that swaps them can lower the first serial |
| `ZoneUpdates.TwoSOAsCrashNext` | resolver/auth/zone/memoryzone/memoryzone.go:509-511 | an apex SOA RRset of several records is published, and the next update that succeeds without an SOA panics |
| `ZoneUpdates.ApexSOAAfter` | resolver/auth/zone/memoryzone/memoryzone.go:244-250 | only adding an apex SOA of greater serial changes the apex SOA |
| `ZoneUpdates.SoaTracks` | resolver/auth/zone/memoryzone/memoryzone.go:244-250 | the apex SOA after a record is decided by that record and the SOA before it |
| `ZoneUpdates.NsKeyTracks` | resolver/auth/zone/memoryzone/memoryzone.go:357-377 | whether the apex still maps NS after a record is decided by that record alone |
| `ZoneUpdates.NSDeleteLeaksSerial` | resolver/auth/zone/memoryzone/memoryzone.go:367-373 | one apex NS delete without rdata is refused by Commit with the live serial raised |
| `ZoneUpdates.NilNSPublished` | resolver/auth/zone/memoryzone/memoryzone.go:432-437 | that delete followed by an apex delete publishes a zone whose NS entry is nil |
| `ZoneQueries.Query.Process` | resolver/auth/query.go:29-64 | all three sections, AA and rcode for each lookup result, up to their assembly into the response; no panic but those of lookups, for any two live zones seen by the two lookups; a section holds a nil RRset if and only if it takes an apex SOA or NS entry that is nil |
| `ZoneQueries.FoundNil` | resolver/auth/zone/memoryzone/memoryzone.go:100-201 | a lookup finds a nil RRset only at the apex, for SOA or NS, and exactly when that entry is nil |
| `ZoneQueries.Query.AddAuthAdditional` | resolver/auth/query.go:79-87 | appends the apex NS found and the addresses it points to, or panics exactly when it is not found or a lookup panics |
| `ZoneQueries.Query.AddSOA` | resolver/auth/query.go:89-95 | appends the apex SOA found, or panics exactly when it is not found |
| `ZoneQueries.GetAdditional` | resolver/auth/zone/memoryzone/memoryzone.go:37-52 | the loop collects the addresses of every NS, MX or SRV target in order |
| `ZoneQueries.AdditionalsAreAddresses` | resolver/auth/zone/memoryzone/memoryzone.go:203-221 | the additional section holds A and AAAA RRsets only, each owned by a name one of the records points to |
| `ZoneQueries.AdditionalsComplete` | resolver/auth/zone/memoryzone/memoryzone.go:203-221 | every A set a glue-ok lookup of a target finds is there, and every AAAA set a target holds beside it or beside no A set |
| `ZoneQueries.AdditionalTypes` | resolver/auth/zone/memoryzone/memoryzone.go:37-52 | NS, MX and SRV sets have additional records and no others do |
| `ZoneQueries.QueriesNeverFindZoneShort` | resolver/auth/query.go:79-95 | on every reachable live zone, before and after any further events, the "zone short of" panics cannot happen |
| `Dns.ComputeRdatasDiff` | resolver/auth/zone/memoryzone/memoryzone.go:485-500 | the nested loop computes the records of the first list that are not in the second, in order |
| `Dns.RdatasDiffMember` | resolver/auth/zone/memoryzone/memoryzone.go:485-500 | a record is left if and only if it is in the first list and not in the second |
| `Dns.RdatasDiffCount` | resolver/auth/zone/memoryzone/memoryzone.go:485-500 | a record left is left as often as it was there |
| `Dns.Add32Mod` | resolver/auth/zone/memoryzone/memoryzone.go:513 | k serial increments are addition modulo 2^32 |
| `MemoryZones.MemoryZone.AddRRset` | resolver/auth/zone/memoryzone/memoryzone.go:223-285 | on the heap an add takes the zone's value exactly where the value operation does, writes only the zone's own nodes, and replaces the SOA object only by one of another serial |
| `MemoryZones.MemoryZone.DeleteRRset` | resolver/auth/zone/memoryzone/memoryzone.go:398-420 | the heap delete of a type equals the value operation and leaves every RRset object alone |
| `MemoryZones.MemoryZone.DeleteRr` | resolver/auth/zone/memoryzone/memoryzone.go:445-478 | the heap delete of records equals the value operation, through a new RRset object |
| `MemoryZones.MemoryZone.DeleteDomain` | resolver/auth/zone/memoryzone/memoryzone.go:422-443 | the heap delete of a domain equals the value operation |
| `MemoryZones.MemoryZone.IncreaseSerialNumber` | resolver/auth/zone/memoryzone/memoryzone.go:502-514 | writes the next serial into the SOA object itself, or panics exactly when there is no single SOA record |
| `MemoryZones.MemoryZone.Clone` | resolver/auth/zone/memoryzone/memoryzone.go:516-522 | a copy with fresh nodes, the same value, and the very same RRset objects |
| `MemoryZones.MergeLoop` | resolver/auth/zone/memoryzone/memoryzone.go:255-262 | the rdata loop merges without duplicates and reports whether all were duplicates |
| `Dns.MergeRdatasCount` | resolver/auth/zone/memoryzone/memoryzone.go:255-262 | merging keeps every old record as often as it was there and brings each new one in once, however often it is given |
| `MemoryZones.SoaWriteSeen` | resolver/auth/zone/memoryzone/memoryzone.go:513 | a write through an SOA object changes exactly the apex SOA of a zone that refers to it, and nothing of one that does not |
| `DynamicZones.DynamicZone.Begin` | resolver/auth/zone/memoryzone/dynamiczone.go:190-197 | opens a transaction whose copy shares the live SOA object and no node |
| `DynamicZones.DynamicZone.Commit` | resolver/auth/zone/memoryzone/dynamiczone.go:19-31 | swaps the copy in exactly when it maps SOA and NS at the apex |
| `DynamicZones.DynamicZone.RollBack` | resolver/auth/zone/memoryzone/dynamiczone.go:33-39 | drops the copy, live zone as it is |
| `DynamicZones.DynamicZone.Load` | resolver/auth/zone/memoryzone/dynamiczone.go:68-108 | fills a new zone aside, skips ineffective records, swaps it in only if complete and not aborted |
| `BatchRecords.LoadEndsExactly` | resolver/auth/zone/memoryzone/dynamiczone.go:68-108 | the first RRset refused other than as "no effect" abandons the load with its own error; otherwise an aborted load is refused and any other is validated with every RRset in it |
| `BatchRecords.LoadedRecords` | resolver/auth/zone/memoryzone/dynamiczone.go:68-108 | a completed load holds at every name and type but SOA and CNAME exactly the records received there, a wildcard NS aside |
| `DynamicZones.DynamicZone.Add` | resolver/auth/zone/memoryzone/dynamiczone.go:199-201 | the step of the transaction model, live zone untouched on the heap |
| `DynamicZones.DynamicZone.DeleteRRset` | resolver/auth/zone/memoryzone/dynamiczone.go:203-206 | the step of the transaction model, live zone untouched on the heap |
| `DynamicZones.DynamicZone.DeleteDomain` | resolver/auth/zone/memoryzone/dynamiczone.go:208-211 | the step of the transaction model, live zone untouched on the heap |
| `DynamicZones.DynamicZone.DeleteRr` | resolver/auth/zone/memoryzone/dynamiczone.go:213-216 | the step of the transaction model, live zone untouched on the heap |
| `DynamicZones.DynamicZone.IncreaseSerialNumber` | resolver/auth/zone/memoryzone/dynamiczone.go:218-220 | raises the copy's serial, and the live one exactly when both refer to the same SOA object |
| `UpdateHandler.ApplyRecords` | resolver/auth/update.go:44-69 | the loop over the records leaves the heap transaction and the two flags as the fold over the records does, stopping at the first refusal that is not "no effect"; the fold's records are those of `BatchRecords.RecordEffect` |
| `UpdateHandler.HandleDynamicRRsets` | resolver/auth/update.go:33-81 | without an updator nothing happens; else on the heap the handler leaves live and returns what the value model does, whose end and records `BatchRecords.UpdateEndsExactly` and `PublishedRecords` decide; only a panic leaves the transaction open |
| `Ixfr.EncodingAccepted` | xfr/fsm.go:56-104 | every encoding of consecutive deltas is accepted with exactly each delta's deletes, one increase and its adds, in order |
| `Ixfr.AcceptedExactlyDeltas` | xfr/fsm.go:56-162 | an answer of two or more records ending in an SOA is accepted if and only if it is SOA(L), one or more consecutive deltas from the current serial, SOA(L) (section 4 of RFC 1995) |
| `Ixfr.TruncatedAccepted` | xfr/fsm.go:134-162 | an answer ending in a data record is accepted if and only if it is a beginning of an encoding |
| `Ixfr.AcceptedOtherwise` | xfr/fsm.go:134-162 | the remaining answers: nothing, a lone SOA and truncated encodings are accepted, all others refused |
| `Ixfr.RunBody` | xfr/fsm.go:59-101 | whole and broken-off deltas are read to their end with exactly their calls |
| `XfrMachines.IxfrMachine.Event` | xfr/fsm.go:69-101 | one event takes table, callbacks, serials and updator calls where the machine function does |
| `XfrMachines.IxfrMachine.Run` | xfr/fsm.go:134-162 | the nested loop over grouped answers has verdict, final machine and calls of its event sequence |
| `XfrMachines.GroupingDoesNotMatter` | xfr/fsm.go:134-162 | answers with the same flat records, however adjacent SOAs are grouped, have the same verdict, machine and calls |
| `XfrMachines.EmptySOASetMatters` | xfr/fsm.go:137-147 | an SOA RRset without records, by contrast, can turn acceptance into refusal |
| `XfrMachines.AxfrMachine.Event` | xfr/fsm.go:106-132 | one RRset takes the AXFR machine where its step function does; an error adds nothing |
| `XfrMachines.AxfrMachine.Run` | xfr/fsm.go:164-188 | the loop has the verdict and the added RRsets of the step function over all answers |
| `XfrMachines.AxfrAcceptedExactly` | xfr/fsm.go:106-188 | accepted if and only if it opens with one SOA of the notified serial, has single-record SOAs only, and, if it ends in an SOA, ends in that serial after data; then the SOA and the data are added in order |
| `XfrMachines.IxfrRefusesAxfrStyle` | xfr/fsm.go:151-157 | an AXFR-style answer is refused by IXFR before any updator call |
| `XfrZones.SerialLockstep` | xfr/fsm.go:78-101 | after any events, accepted or not, machine serial, transaction serial and live serial all equal the start plus the completed delete sections modulo 2^32, and the rest of the live zone is unchanged; after a panic both zones stand at the increases made before it |
| `XfrZones.RollBackInvisible` | xfr/runner.go:175-181 | a transfer that does not panic leaves the live zone as it was until its end if and only if the completed delete sections are a multiple of 2^32 |
| `XfrZones.RunSerial` | xfr/fsm.go:78-91 | the machine's serial is its start plus the completed delete sections, one increase call each |
| `XfrZones.CallPanicsExactly` | resolver/auth/zone/memoryzone/memoryzone.go:357-377 | a call that brings no SOA panics if and only if it raises a serial that is not that of a single SOA record, deletes the apex NS set while there is none, or adds to a nil one |
| `XfrZones.CrashesExactly` | xfr/fsm.go:78-100 | the calls of a transfer panic if and only if its apex NS records panic on the apex NS entry, or the live zone has no single SOA record and there is a serial to raise |
| `XfrZones.IxfrPublishesDeltas` | xfr/runner.go:167-187 | how an accepted IXFR ends: fatal if the zone has no single SOA record or the apex NS records panic; refused by Commit, only the live serial moved, if they end without an entry; otherwise published at the start serial plus the number of deltas |
| `IxfrRecords.PublishedReads` | xfr/fsm.go:93-100 | the records at every name of a published zone: a delete that is not refused takes the whole type, an add that is not refused adds to it, in the order of the calls |
| `IxfrRecords.TraceReads` | resolver/auth/zone/memoryzone/memoryzone.go:398-420 | the same for the calls of any transfer that did not panic |
| `IxfrRecords.MeantByCalls` | xfr/fsm.go:93-100 | what deltas mean by section 4 of RFC 1995, old records minus deletes plus adds, read call by call |
| `IxfrRecords.IxfrMeantExactly` | xfr/fsm.go:93-100 | for any sequence of deltas, any name and any type but SOA and CNAME, the published records are those the deltas mean if and only if after the last delete there every record they keep is brought again, every record brought is accepted, and whatever a refused delete left is brought anyway |
| `IxfrRecords.IxfrMeantByAdds` | xfr/fsm.go:98-99 | without a delete at the name and type they are those the deltas mean if and only if every record of a refused add was there or is accepted another time |
| `IxfrRecords.LastDelete` | xfr/fsm.go:96-97 | every call trace has no delete at a name and type or a last one, so the two results cover all |
| `IxfrRecords.OneDeltaMeantExactly` | resolver/auth/zone/memoryzone/memoryzone.go:367-373 | for one delta: if and only if it brings again every record of the type it does not name, or, naming the whole apex NS set, every record it names |
| `IxfrRecords.PartialDeleteDropsType` | resolver/auth/zone/memoryzone/memoryzone.go:408-417 | a delta that deletes one record publishes a zone without any record of its type |
| `IxfrRecords.WholeNSReplacementKeepsOld` | resolver/auth/zone/memoryzone/memoryzone.go:367-373 | a delta that replaces the whole apex NS set publishes the old records beside the new |
| `XfrZones.NSReplacementCrashes` | resolver/auth/zone/memoryzone/memoryzone.go:367-373 | replacing the apex NS set over two deltas, the first taking one of its records, panics |
| `AxfrZones.AxfrEnds` | xfr/runner.go:167-187 | an AXFR end to end: it panics exactly on the condition below, a refused one leaves the live zone as it was, an accepted one publishes the live zone with the answer added, or changes nothing if that lacks an apex SOA or NS |
| `AxfrZones.AxfrCrashesExactly` | xfr/fsm.go:115-130 | the adds of an AXFR panic if and only if one brings an apex NS record to a nil apex NS entry, and never touch the live zone |
| `AxfrZones.AddsGrow` | resolver/auth/zone/memoryzone/memoryzone.go:223-285 | every entry and record of the live zone survives an AXFR; an SOA only gives way to a newer one |
| `AxfrZones.AxfrReplacesExactly` | resolver/auth/zone/memoryzone/dynamiczone.go:190-201 | the published records are those the answer describes if and only if the answer covers the live zone: every entry, every record, a newer SOA or the same |
| `XfrDriver.PerformOps` | xfr/fsm.go:78-130 | the updator calls performed on the heap zone leave it where the model of the transaction stands, up to the first panic |
| `XfrRunner.Runner.AddZoneToTransfer` | xfr/runner.go:82-98 | refuses exactly a zone already listed for the view, else appends it |
| `XfrRunner.Runner.RemoveZoneFromTransfer` | xfr/runner.go:100-112 | removes the first occurrence of the zone and nothing else |
| `XfrRunner.AtMostOneTransfer` | xfr/runner.go:36-116 | over every interleaving of notifies and finishing transfers at most one transfer runs per view and zone, and it is listed |
| `XfrRunner.TransferLifeCycle` | xfr/runner.go:36-116 | over every interleaving a notify for an unlisted zone starts its transfer, which ends, and frees the zone for the next one, when it finishes and by no other event |
| `XfrRunner.EarlyReturnBlocksForever` | xfr/runner.go:53-78 | after an early return that zone is never transferred again, whatever follows |
| `XfrRunner.UpdateZoneUseXFR` | xfr/runner.go:167-187 | on the heap zone: what is live afterwards and how the transfer ends, a rolled back IXFR followed by one AXFR begun after release; unless it panicked no transaction is left open |
| `XfrRunner.DeltasTransfer` | xfr/runner.go:167-187 | answers that encode deltas, however their SOAs are grouped, are settled by IXFR without any fallback |
| `XfrRunner.AxfrStyleFallsBack` | xfr/runner.go:178-186 | an AXFR-style answer to an IXFR ends as an AXFR begun on the untouched live zone |
| `LruLists.PackedWord` | cache/messagecache.go:183-186 | the shift and or of the key is multiplication and addition on 64-bit words |
| `LruLists.LifetimeIsSmallestServed` | cache/messagecache.go:130-181 | the lifetime is the smallest TTL served in the answer, or the TTL the negative SOA is served with |
| `LruLists.NegativeLifetime` | cache/messagecache.go:130-157 | the lifetime of a negative answer is the least of negative limit, SOA minimum and SOA TTL (section 5 of RFC 2308), or the limit alone without a single SOA |
| `LruLists.ServedSections` | cache/messagecache.go:130-181 | what is served of a message: the question, every answer with its TTL cut to the limit, every authority but for the TTL of a negative SOA, additionals and authorities as short answers allow |
| `LruLists.RunInv` | cache/messagecache.go:103-116 | over every run keys stay distinct and a non-zero maximum is never exceeded |
| `LruLists.AddKeeps` | cache/messagecache.go:103-116 | the newest entry is first, so never the one evicted |
| `LruLists.AddShape` | cache/messagecache.go:103-116 | only a new key in a full cache costs an entry, and it is the least recently used |
| `LruLists.CacheRefinesMap` | cache/messagecache.go:91-235 | over every run the cache holds under a key the latest message added under it or nothing; without a maximum it refines the map exactly |
| `LruLists.HitIsRight` | cache/messagecache.go:188-212 | a hit has the asked name and type, is a message added earlier in the run, and comes no later than its smallest served TTL after that add; a negative one no later than negative limit, SOA minimum and SOA TTL after it |
| `LruLists.HitExactly` | cache/messagecache.go:188-212 | a query hits if and only if the key is still listed, its latest add was for the asked name, and that message's lifetime has not passed; without a maximum the key is always listed |
| `LruLists.RecentlyUsedSurvive` | cache/messagecache.go:103-116 | an entry added or hit stays until replaced or removed, or until as many other keys as the cache has room for were used since |
| `MessageCache.Cache.constructor` | cache/messagecache.go:53-89 | empty cache; zero TTL limits stand for 3600 and 60 seconds |
| `MessageCache.Cache.Add` | cache/messagecache.go:91-116 | map and list stay in bijection and become the LRU list with the message's entry added; keys stay distinct and a maximum that was kept is kept |
| `MessageCache.Cache.ClampAnswers` | cache/messagecache.go:165-175 | one pass finds the smallest TTL and clamps every TTL to the limit |
| `MessageCache.Cache.NegativeMessageToCache` | cache/messagecache.go:130-157 | the entry is the message as `LruLists.ServedSections` describes it, with the lifetime of `LruLists.NegativeLifetime` |
| `MessageCache.Cache.Get` | cache/messagecache.go:188-212 | hits and moves to the front exactly as the LRU list does, and hands to the prefetcher exactly the hits about to expire |
| `MessageCache.Cache.Remove` | cache/messagecache.go:214-221 | drops what is filed under the key, whatever its name |
| `MessageCache.Cache.RemoveOldest` | cache/messagecache.go:223-228 | drops the last entry, from list and map |
| `MessageCache.Cache.RemoveElement` | cache/messagecache.go:230-235 | takes the element off the list and its own key off the map, keeping the bijection |
| `MessageCache.Cache.Clear` | cache/messagecache.go:244-250 | empties both |
| `MessageCache.Cache.ValidIsInv` | cache/messagecache.go:39-51 | the bijection of map and list gives the list distinct keys |
| `NameServers.SelectNameServer` | resolver/recursor/nameserver.go:69-85 | the first of the addresses with the smallest round-trip time |
| `NameServers.NameServerManager.AddNameServer` | resolver/recursor/nameserver.go:116-127 | keeps an unexpired entry of at least the same trust under the hash, else files the new one; panics exactly without addresses |
| `NameServers.NameServerManager.DeleteNameServers` | resolver/recursor/nameserver.go:152-158 | removes whatever is filed under the names' hashes |
| `NameServers.PutLaws` | resolver/recursor/nameserver.go:116-138 | an added entry is found unless a live entry of at least its trust was kept; names of other hashes are unaffected |
| `NameServers.UsableLaws` | resolver/recursor/zoneentry.go:34-46 | the names selected are exactly the unexpired known names of the zone, in order and as often as listed, each at its fastest address; none exactly when none is known |
| `NameServers.ZoneSelectNameServer` | resolver/recursor/zoneentry.go:34-46 | the loop collects exactly the usable servers of `UsableLaws`, in order |
| `NsasCache.SelectLaws` | resolver/recursor/nsascache.go:105-139 | selection returns nothing only if every enclosing zone was evicted, else every unexpired known server of one unexpired enclosing zone, in order, that zone now most recently used, every deeper enclosing zone evicted, no other zone touched and no forgotten element lost |
| `NsasCache.SelectEvictsUseless` | resolver/recursor/nsascache.go:111-132 | selection evicts no zone it could have used: an evicted one had expired, or each of its servers was unknown, expired or lost with a deeper evicted zone |
| `NsasCache.RemovedLaws` | resolver/recursor/nsascache.go:134-139 | after a removal none of the zone's servers is found, servers under other hashes, other zones and the order of other elements stay |
| `NsasCache.NsasCache.SelectNameServers` | resolver/recursor/nsascache.go:111-132 | terminates, since cached zones strictly decrease, with the state and servers of that selection |
| `NsasCache.NsasCache.RemoveZone` | resolver/recursor/nsascache.go:134-139 | zone, element and server entries go; every remaining zone is still listed |
| `NsasCache.NsasCache.SortServers` | resolver/recursor/nsascache.go:69-85 | the two lists hold the known and the missing servers in the order they are listed |
| `NsasCache.SortedServers` | resolver/recursor/nsascache.go:75-84 | every server is known or missing as often as it is listed; one trusted least is both |
| `NsasCache.NsasCache.AddZone` | resolver/recursor/nsascache.go:87-103 | an unexpired entry of higher trust stays; otherwise the list grows by one, a replaced element staying in it |
| `NsasCache.NsasCache.EnforceMemoryLimit` | resolver/recursor/nsascache.go:153-185 | panics if and only if the batch holds more expired zones than the maximum, never from 100 up; otherwise a list over the maximum ends at the maximum minus the expired zones, the tree losing exactly the zones of removed elements |
| `NsasCache.NsasCache.RemoveExpired` | resolver/recursor/nsascache.go:162-173 | from the back, at most 100 elements are looked at and exactly the expired ones removed |
| `NsasCache.FreshCount` | resolver/recursor/nsascache.go:162-173 | of the elements looked at an unexpired one stays as often as it was listed and an expired one goes |
| `NsasCache.FreshInOrder` | resolver/recursor/nsascache.go:162-173 | the elements that stay keep their order |
| `NsasCache.NsasCache.RemoveOldest` | resolver/recursor/nsascache.go:176-184 | that many elements go from the back; panics exactly if there are fewer |
| `NsasCache.TreeFits` | resolver/recursor/nsascache.go:63-65 | the tree never holds more zones than the list |
| `CNameChains.ChaseBounds` | resolver/cnamehandler.go:36-122 | at most 17 questions, the first the original, the others of its type and class for names of a chain that never repeats |
| `CNameChains.ChaseShows` | resolver/cnamehandler.go:36-89 | the final answers are, in the order of the questions, what each reply shows: a CNAME in front alone in indirect mode, else all of it; the rcode is that of the last reply that came; each question is where the reply before it pointed; the chase stops only at a reply that points nowhere, a name already chased, or 16 redirects; and there is no chase exactly when the first reply points nowhere |
| `CNameChains.ChaseIsLinked` | resolver/cnamehandler.go:36-89 | in indirect mode the CNAMEs heading the final answer form one linked chain from the question, also on loop or length cut-off |
| `CNameHandler.Handler.Resolve` | resolver/cnamehandler.go:36-47 | the question is restored and the response carries the answers and rcode of the chase that `ChaseShows` describes; without a redirect it is the first response |
| `CNameHandler.Handler.FollowCNameChain` | resolver/cnamehandler.go:70-89 | the recursive chase over the context asks the questions and merges the replies of the chase function, including the last reply |
| `CNameHandler.Context.MakeRedirectQuery` | resolver/cnamehandler.go:111-122 | counts, refuses past 16, else asks for the last name of the chain |
| `CNameHandler.Context.MergeResponse` | resolver/cnamehandler.go:124-135 | appends all answers and takes the rcode; nothing for no response |
| `CNameHandler.Context.AddRedirect` | resolver/cnamehandler.go:145-154 | refuses exactly a name already in the chain |
| `CNameHandler.Context.AssembleFinalResponse` | resolver/cnamehandler.go:137-143 | request and response carry the original question |
| `Prober.ProbesConserved` | resolver/forwarder/prober.go:45-112 | over every interleaving of probes, ticks, requeues, failures and restorations each tracked forwarder is in exactly one place once, and nothing else is anywhere |
| `Prober.ProbeMoves` | resolver/forwarder/prober.go:45-112 | in every interleaving a forwarder becomes tracked only by being added and stops being tracked only when its own probe succeeds, and is then nowhere; an add, a failed probe and a busy pool leave it in the queue and nowhere else, a hand-over in the pool |
| `Prober.TakenInTurn` | resolver/forwarder/prober.go:73-110 | the target behind p others is taken in batch number p / 10, at place p mod 10, whatever happens meanwhile |
| `Prober.Prober.Add` | resolver/forwarder/prober.go:63-71 | queues and tracks a forwarder not yet tracked |
| `Prober.Prober.TakeBatch` | resolver/forwarder/prober.go:82-93 | takes at most ten targets off the front, in order |
| `Prober.Prober.SendNext` | resolver/forwarder/prober.go:95-110 | the next target goes to the pool, or back to the queue when the pool is busy |
| `Prober.Prober.ProbeDone` | resolver/forwarder/prober.go:46-59 | a failed target is requeued, a restored one untracked |
| `RoundRobin.SelectNextUsableFwder` | resolver/forwarder/safefwderselector.go:17-28 | the first forwarder up in cyclic order, or none exactly when all are down |
| `RoundRobin.RoundRobinSelector.SelectFwder` | resolver/forwarder/safefwderselector.go:86-93 | selects it and resumes just after it, or at the first when all are down; `next` stays in range |
| `RoundRobin.BoundedWaiting` | resolver/forwarder/safefwderselector.go:17-93 | a forwarder that stays up is selected within any n consecutive calls, however the others change |
| `RateLimit.RateBound` | filter/ratelimit/ip_access_record.go:30-51 | at most max(1, limit) accesses per window and twice that in any closed second, for records of both kinds and every limit below 2^32 - 1 |
| `RateLimit.AccessExactly` | filter/ratelimit/ip_access_record.go:35-51 | an access more than a second after its window opened opens a new one and is allowed; any other is refused if and only if the window already allowed `limit` accesses |
| `RateLimit.FirstAccessExactly` | filter/ratelimit/name_access_record.go:38-54 | the first access is allowed for an IP record, and for a name record unless the limit is zero |
| `RateLimit.UnlimitedAtMaximum` | filter/ratelimit/ip_access_record.go:41-46 | at the limit 2^32 - 1 every access of every run is allowed |
| `RateLimit.IPAccessRecord.IsAccessAllowed` | filter/ratelimit/ip_access_record.go:35-51 | one access in uint32 arithmetic, window and decision as specified |
| `RateLimit.NameAccessRecord.IsAccessAllowed` | filter/ratelimit/name_access_record.go:38-54 | the same with the lazily opened empty first window |
| `Dns64.SynthesisAddr` | dns64/protocol.go:65-83 | leading octets are the prefix, the four octets are embedded around octet 8, trailing octets are the suffix |
| `Dns64.RoundTrip` | dns64/protocol.go:65-83 | the IPv4 address is read back for all six prefix lengths; octet 8 is zero for /40 to /64, the suffix's for /32 |
| `Dns64.PositionTable` | dns64/protocol.go:9 | the embedding positions are those of section 2.2 of RFC 6052 for each valid length |
| `Dns64.SynthesisUnique` | dns64/protocol.go:65-83 | the description determines every octet |

## Left out

- Wire encoding, TSIG, domain tree, radix tree, state-machine and worker-pool internals: libraries, modelled by contract as described above.
- Which node a partial match ends at under label compression: a contract, so no full closest-encloser claim of RFC 4592.
- `RotateRdata` after a zone lookup: any permutation in `SerialNeverDrops`, not modelled elsewhere.
- Assembling the sections into the response message: g53 code, which would meet a nil RRset exactly where `Process` says.
- Asynchronous `clean` of retired zones, and readers that still hold one.
- Zone ownership checks, ACLs, views, masters, logging, metrics, HTTP commands, configuration, k8s, hijack, local data, sort lists: plumbing or easy filters.
- `doXFR`'s sockets and its serial comparison before a transfer: the machine's starting serial is a parameter.
- A failing `Begin`: the memory zone's never fails.
- Cache reconfiguration and the prefetcher behind `Get`: the limits of a cache are fixed.
- MessageCache.Cache.Get: does not model the rotation of the answer's rdatas after a hit, a permutation that lookup and eviction never read.
- XfrDriver.PerformOps: performs the calls once the machine has given its verdict instead of one by one in between; the calls, their order and their effect are the same, since the machine reads nothing back from the zone.
- `updateRtt` and the random initial round-trip times: any integer can be an address's time.
- Clock readings inside one call of the name-server cache are taken to be one.
- `IPAccessRecordStore`: a second cache of the shape of the message cache; the rate bound is per record, and an evicted record starts over.
- `RttBasedSelector` and `FixOrderSelector`: a sort, or the same search from index 0.
- What is left of a batch when the prober is stopped: conservation is stated before stop.
- Aliasing between the responses of one CNAME chase: responses are values.
- `Dns64Converter` parsing: prefix and suffix are given as octets.
