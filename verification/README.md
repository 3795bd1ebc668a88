# Open vSwitch core: a Dafny model

This project models the parts of Open vSwitch whose correctness depends on state kept
consistent over many operations, and proves what they promise.

- **Flow classifier** (`lib/classifier.c`). A tuple-space search over one hash table per
  mask, with the tables ordered by cached top priorities so that lookups can stop early.
  The reference is a plain set of rules. `ClassifierModel.dfy`, `ClassifierUpdate.dfy`,
  `Classifier.dfy` and `ClassifierCursor.dfy`.
- **Kernel flow table** (`datapath/flow.c`, `datapath/datapath.c`). Masked word-range
  comparison, shared reference-counted masks, one hash table for all masks, expansion and
  rehashing through two sets of links. The reference is a plain map of wildcarded entries
  (`FlowSpec.dfy`). `FlowKey.dfy`, `FlowTable.dfy`, `FlowMasks.dfy`, `FlowUpdate.dfy`,
  `Datapath.dfy`, `FlowNaming.dfy`, `FlowChains.dfy`.
- **Flow keys in Netlink** (`datapath/flow.c`). The nested attributes that carry a flow
  key, written and read. `FlowNetlink.dfy`, `FlowRoundTrip.dfy`.
- **BFD** (`lib/bfd.c`). One session as a timed state machine, and two sessions over a
  channel that loses, duplicates and reorders packets. `BfdModel.dfy`, `BfdSession.dfy`,
  `BfdRuns.dfy`, `BfdProperties.dfy`, `BfdPair.dfy`.
- **Bond balancing** (`lib/bond.c`). The rebalancing loop and the delayed enabling and
  disabling of slaves. `BondModel.dfy`, `Bond.dfy`, `BondLink.dfy`.
- **Action execution** (`datapath/actions.c`). Deferred output against a naive
  interpreter, and the guard against recursion. `Actions.dfy`, `LoopGuard.dfy`.
- **Checksums and byte queues** (`lib/csum.c`, `lib/byteq.c`). `Csum.dfy`, `Byteq.dfy`.

Where the source updates state in place, the model is a class or a method with the
source's loops, and its contract ties the new state to a specification function; the
lemmas about that function carry the properties. Hash functions are arbitrary functions,
so nothing depends on their quality. `Collections.dfy` holds what the modules share.

## Where the code does not do what one would expect

Each entry names the exact condition under which the expected property holds, and an
input for which it does not.

- BFD sends an interval in microseconds in 32 bits: it survives exactly up to 4294967 ms
  (`WireCarriesInterval`; `WireCanWrap`).
- Section 6.8.3 of RFC 5880 wants at least one second between packets while a session is
  not Up. That holds exactly unless a poll sequence from a shorter interval is under way
  (`SlowUnlessUpExactly`), which can begin in Init (`FastWhileInit`) or outlive the fall
  of a session that was Up (`PollOutlivesFall`).
- A turn of the rebalancing loop leaves the highest load no higher exactly when the entry
  that moves is no larger than the overload (`TurnLowersPeakExactly`); there are loops in
  which it rises (`PeakRises`).
- A packet is released exactly once exactly when every sample that is taken succeeds on
  the packet it gets (`ReleasedOnceExactly`; `NestedFailureReleasesTwice`).
- An incremental checksum update equals recomputation exactly when the new data are not
  all zero (`Recalc16Exact` and its companions). The trailing byte of odd data counts as
  RFC 1071 wants it exactly on little-endian machines or when it is zero
  (`OddDataPadded`). A 32-bit sum that wraps is harmless exactly when the lost part is a
  multiple of 65535 and something is left (`WrapHarmlessExactly`; `SumCanWrap`).
- The fill level of a byte queue fits a C `int` exactly for sizes up to 2^30
  (`FillLevelFitsExactly`).
- A flow key comes back from its own Netlink attributes exactly when it is well formed
  and acceptable (`RoundTripExactly`). A key with a cut-short 802.1Q header never does,
  although the parser has a branch for it (`TruncatedVlanRejected`).
- Deleting or updating with the key that a flow was installed with hits that flow exactly
  when no flow whose mask is tried earlier agrees with the key (`OwnKeyDeletes`,
  `OwnKeyUpdates`). Otherwise it hits the other flow, or none: both happen with keys and
  masks that the parser makes (`HiddenByTunnel`, `HiddenByWiderMask`).
- One rehash leaves readers of the old table unharmed (`RehashShows`). After two, a reader
  of the first table is unharmed exactly when every chain of it is empty or ends a chain
  of the last table (`TwoRehashesSafeExactly`; `TwoRehashesCanHarm`).

## Model

| member | source | states |
|---|---|---|
| `ClassifierModel.LookupWildcards` | lib/classifier.c:266-308 | wildcard soundness: a flow that agrees on the accumulated significant bits gets the same rule and the same bits, for every state of the tables and however early lookup stopped |
| `ClassifierModel.CachedAnswerIsBest` | lib/classifier.c:266-308 | an answer cached under the accumulated bits is the best match, among the plain rules, of every flow that the cache entry covers |
| `ClassifierModel.LookupIsBest` | lib/classifier.c:275-308 | lookup with its early exit is a highest-priority match over the union of all tables, and none exactly when no rule matches |
| `ClassifierModel.FindMatchIsBest` | lib/classifier.c:665-678 | hash and compare in one table finds the best match over that table's rules |
| `ClassifierModel.KeysUnique` | lib/classifier.c:190-202 | a valid index holds at most one rule per criteria and priority |
| `ClassifierModel.OverlapIsCommonPacket` | lib/classifier.c:359-396 | agreement on the intersection of two masks is the same as a packet that matches both rules |
| `ClassifierUpdate.HeadsSuffice` | lib/classifier.c:626-662 | rescanning only the heads of the lists finds every rule of the top priority |
| `ClassifierUpdate.Added` | lib/classifier.c:694-740 | inserting a rule with a new key keeps the whole index invariant and adds exactly that rule |
| `ClassifierUpdate.Replaced` | lib/classifier.c:694-740 | inserting over an equal key keeps the invariant and exchanges exactly the two rules |
| `ClassifierUpdate.Removed` | lib/classifier.c:239-264 | removing from a table that keeps other rules keeps the invariant and loses exactly that rule |
| `ClassifierUpdate.MovedForward` | lib/classifier.c:584-614 | a table that rose goes in front of those it outranks and the order stays descending |
| `ClassifierUpdate.MovedBack` | lib/classifier.c:626-662 | a table that fell goes behind those that outrank it and the order stays descending |
| `Classifier.Classifier.FindMatchHashed` | lib/classifier.c:665-678 | the loop over the hash chain, in any order, computes the table's match |
| `Classifier.Classifier.LookupFlow` | lib/classifier.c:275-308 | the two loops compute the specified lookup and significant bits, and the result is the best match over the rule set |
| `Classifier.Classifier.FindRuleExactly` | lib/classifier.c:314-339 | returns the rule with the target's criteria and priority, or none exactly when there is none |
| `Classifier.Classifier.RuleOverlaps` | lib/classifier.c:363-396 | true exactly when a rule of equal priority shares a packet with the target, despite the early break |
| `Classifier.Classifier.UpdateAfterInsertion` | lib/classifier.c:584-614 | the table's cached maximum and its place in the order after an insertion |
| `Classifier.Classifier.UpdateAfterRemoval` | lib/classifier.c:626-662 | exact cached figures and a sorted table list after a removal |
| `Classifier.Classifier.Replace` | lib/classifier.c:204-220 | keeps the invariant; the rule set gains the rule and loses exactly the one with its key, which is returned |
| `Classifier.Classifier.Insert` | lib/classifier.c:229-233 | with no equal key present nothing is displaced, so the assertion holds |
| `Classifier.Classifier.Remove` | lib/classifier.c:239-264 | keeps the invariant; the rule set loses exactly the rule |
| `Classifier.Run` | lib/classifier.c:203-308 | in every run of replaces, removes and lookups each answer is that of a plain rule set, and a lookup's answer is right for every flow its wildcards cover |
| `ClassifierCursor.CursorVisitsExactly` | lib/classifier.c:475-534 | the walk meets every loosely matching rule exactly once and no other |
| `ClassifierCursor.CursorNext` | lib/classifier.c:503-534 | one step of the cursor, leaving a circular list at its end |
| `ClassifierCursor.ForEach` | lib/classifier.c:475-534 | the loop over the cursor visits exactly the matching rules, once each |
| `ClassifierCursor.ForEachRule` | lib/classifier.c:475-534 | the same for every valid classifier, with its hash maps enumerated in any order |
| `FlowKey.BuiltMaskOk` | datapath/flow.c:54-104 | however the parser fills a mask, all its words outside the recorded, word-aligned range are zero |
| `FlowKey.SetMaskOkExactly` | datapath/flow.c:2121-2128 | setting a range of a mask leaves it well formed exactly if nothing was set outside the range before |
| `FlowKey.ExactMaskOk` | datapath/flow.c:1427-1465 | the mask of a flow without a mask attribute is well formed for every key: the range of the key reaches eth.tci |
| `FlowKey.RangeSuffices` | datapath/flow.c:383-397 | comparing masked keys within the range decides agreement under the whole mask, whatever is in the words outside |
| `FlowKey.KeyMask` | datapath/flow.c:383-397 | the word loop masks the range and leaves the rest of the destination as it was |
| `FlowKey.CmpKey` | datapath/flow.c:1046-1058 | the accumulated differences are zero exactly when the keys agree in the range |
| `FlowMasks.LookupMasked` | datapath/flow.c:1096-1117 | finds a flow of the given mask that agrees with the key under the whole mask, or none exactly if there is none |
| `FlowMasks.Lookup` | datapath/flow.c:1119-1132 | the answer of a definition without hashing: a match whose mask comes first, none only if no flow matches |
| `FlowMasks.AnswerUnique` | datapath/flow.c:1119-1132 | that definition determines the flow |
| `FlowMasks.OwnKeyFindsExactly` | datapath/flow.c:1082-1094 | a flow's own key finds it exactly when no flow with an earlier mask agrees with that key |
| `FlowMasks.FindMask` | datapath/flow.c:2082-2106 | comparing ranges and in-range bytes finds the equal mask, or none exactly if there is none |
| `FlowTable.WalkMeetsEachOnce` | datapath/flow.c:510-535 | a walk over all buckets meets every flow exactly once |
| `FlowTable.RehashHolds` | datapath/flow.c:609-653 | rehashing with any seed and size keeps exactly the flows and their count |
| `FlowUpdate.WithFlowGood` | datapath/datapath.c:1312-1341 | installing keeps the invariant: every flow in its bucket once, masks pairwise different, reference counts equal to the number of users, no two flows with the same mask and masked key |
| `FlowUpdate.WithoutFlowGood` | datapath/datapath.c:1490-1498 | deleting meets a positive count and a referenced mask, and keeps the same invariant |
| `FlowUpdate.NoFlowsNoMasks` | datapath/flow.c:510-535 | once all flows are freed the mask list is empty |
| `FlowSpec.FindsIsSpec` | datapath/flow.c:1119-1132 | what a packet finds by the table's definition is what it finds in the plain entries |
| `FlowSpec.LastRefExactly` | datapath/flow.c:2065-2080 | a mask's last reference goes exactly when no other entry uses the mask |
| `FlowSpec.AddIsSpec` | datapath/datapath.c:1323-1340 | installing a flow adds one plain entry, and its mask to the order if it is new |
| `FlowSpec.DropIsSpec` | datapath/flow.c:668-679 | freeing a flow drops one plain entry, and its mask from the order if it was the last |
| `Datapath.CopyFlows` | datapath/flow.c:609-630 | the nested loops insert all flows of the old table in the new one |
| `Datapath.Datapath.Receive` | datapath/flow.c:1119-1132 | returns the one flow that the plain entries allow |
| `Datapath.Datapath.Resize` | datapath/flow.c:632-653 | keeps the invariant, the entries, the order and the count |
| `Datapath.Datapath.NewOrSet` | datapath/datapath.c:1289-1370 | the error code and the new entries for every combination of command, flag, existing flow and failed allocation |
| `Datapath.Datapath.Delete` | datapath/datapath.c:1475-1500 | deletes the flow found exactly if its unmasked key is the one given and there is memory for the reply, else changes nothing; the error code |
| `Datapath.Datapath.Destroy` | datapath/flow.c:510-535 | frees every flow once, never releases an unreferenced mask, and leaves the mask list empty |
| `Datapath.Datapath.Flush` | datapath/datapath.c:461-475 | leaves an empty table, or everything as it was if there is no memory for one |
| `Datapath.Run` | datapath/datapath.c:1289-1500 | every run of packets, new, set, delete, flush, expand and rehash is a run of the plain map of wildcarded entries |
| `FlowNaming.OwnKeyDeletes` | datapath/flow.c:1068-1094 | in every good state: deleting with a flow's own key removes the flow exactly if no earlier flow agrees with the key; otherwise the first that agrees if the compared part of the keys is the same; otherwise nothing |
| `FlowNaming.OwnKeyUpdates` | datapath/datapath.c:1341-1370 | the same for replacing the actions |
| `FlowNaming.HiddenFlowStays` | datapath/datapath.c:1289-1500 | in every run that installs two such flows and deletes with the key of the older, the older stays |
| `FlowNaming.InstallAndDelete` | datapath/datapath.c:1289-1500 | the same through the commands of a datapath |
| `FlowNaming.HiddenByWiderMask` | datapath/flow.c:54-104 | two such flows, with masks on Ethernet addresses as the parser builds them, where nothing is deleted |
| `FlowNaming.HiddenByTunnel` | datapath/flow.c:1037-1058 | two such flows, one with a tunnel and one that matches on there being none, where the other flow is deleted |
| `FlowChains.ReaderSafeExactly` | datapath/flow.c:1106-1111 | a reader meets the same flows after the links changed exactly if the link of every flow it meets is the same |
| `FlowChains.RehashShows` | datapath/flow.c:609-653 | after a rehash the new chains show all flows and a reader of the old table still meets what it met before |
| `FlowChains.CopyChains` | datapath/flow.c:609-630 | following the old links while writing the new ones does that |
| `FlowChains.TwoRehashesSafeExactly` | datapath/flow.c:609-653 | after two rehashes a reader of the first table meets what it should exactly when every chain of it is empty or ends a chain of the last table |
| `FlowChains.SecondRehashHarmsReader` | datapath/flow.c:609-630 | for all sizes and seeds: neighbours in a chain of the first table that part in the last one make a reader of the first go wrong |
| `FlowChains.TwoRehashesCanHarm` | datapath/flow.c:632-653 | an instance at every size that a table of the datapath can have |
| `FlowNetlink.ParseNested` | datapath/flow.c:1185-1229 | the loop rejects unknown, repeated and wrongly sized attributes and collects the others |
| `FlowNetlink.ScanTunnel` | datapath/flow.c:1243-1330 | the loop computes the specified tunnel key or rejects |
| `FlowNetlink.TunRoundTrip` | datapath/flow.c:1243-1365 | a tunnel key is accepted back exactly if it has a destination, and what then comes back |
| `FlowRoundTrip.ParsesBack` | datapath/flow.c:1809-2019 | for every key: whether the parser accepts the attributes written for it, and the key it then yields |
| `FlowRoundTrip.RoundTripExactly` | datapath/flow.c:1665-1767 | the key comes back unchanged exactly when it is well formed and acceptable |
| `FlowRoundTrip.RestoredExactly` | datapath/flow.c:1809-2019 | nothing is lost exactly for well-formed keys |
| `FlowRoundTrip.TruncatedVlanRejected` | datapath/flow.c:1427-1438 | a key with the VLAN type but no tag is never accepted back |
| `FlowRoundTrip.SameMessageSameKey` | datapath/flow.c:1809-2019 | well-formed acceptable keys with the same attributes are equal |
| `FlowRoundTrip.DumpAccepted` | datapath/flow.c:1665-1767 | every key that the parser ever yields can be written and is accepted again |
| `FlowRoundTrip.DumpStable` | datapath/flow.c:1809-2019 | for every key taken from user space: what comes back from writing and reading it is well formed, is written alike, and comes back as itself |
| `FlowRoundTrip.ReadKey` | datapath/flow.c:1665-1767 | the code with its loops over nested attributes reads exactly what the specification says |
| `FlowRoundTrip.ReadBack` | datapath/flow.c:1665-1767 | through that code a key is read back from its own attributes exactly if it is well formed and acceptable |
| `BfdModel.EveryRunKeepsInv` | lib/bfd.c:283-769 | over every sequence of configurations, ticks, sends and arbitrary packets: Poll and Final never together, never AdminDown, Init or Up only with a remote discriminator, decay only while Up and not below the configured interval, all intervals at least 100 ms |
| `BfdModel.DoKeeps` | lib/bfd.c:283-769 | each single operation keeps that invariant |
| `BfdModel.ProcessKeeps` | lib/bfd.c:606-769 | so does every received packet, well formed or not |
| `BfdModel.RunKeeps` | lib/bfd.c:462-491 | so does the periodic work, with expiry, decay and polling |
| `BfdProperties.AdvertisedAtLeast100` | lib/bfd.c:504-578 | no run advertises an interval below 100 ms or Poll with Final |
| `BfdProperties.WireCarriesInterval` | lib/bfd.c:559-569 | an interval survives the 32-bit microsecond field exactly up to 4294967 ms |
| `BfdProperties.WireCanWrap` | lib/bfd.c:559-569 | a configured interval that goes out as 704 microseconds |
| `BfdProperties.SlowUnlessUpExactly` | lib/bfd.c:830-839 | the one-second rule of section 6.8.3 of RFC 5880 holds exactly unless a poll from a shorter interval is under way |
| `BfdProperties.FastWhileInit` | lib/bfd.c:817-827 | a run that breaks that rule |
| `BfdProperties.PollOutlivesFall` | lib/bfd.c:462-491 | a session that expires while it polls for a short interval breaks that rule, too |
| `BfdProperties.SlowConfigurationObeys` | lib/bfd.c:817-839 | every run whose configurations ask for at least a second obeys it throughout |
| `BfdProperties.SilenceBringsDown` | lib/bfd.c:462-491 | without packets, one tick at or after the detection time brings the session Down for good |
| `BfdPair.EveryRunKeepsPairInv` | lib/bfd.c:683-764 | the two-party invariant over every run with loss, duplication, reordering and restarts |
| `BfdPair.UpOnlyAfterHandshake` | lib/bfd.c:683-764 | in every run an endpoint is Up only if it accepted a packet that the peer sent while Init or Up, after the peer had accepted a packet from this endpoint |
| `BfdPair.UpOnlyAfterOwnHandshake` | lib/bfd.c:683-764 | if no endpoint takes a discriminator twice, all four events of that handshake belong to the present session |
| `BfdPair.BothComeUp` | lib/bfd.c:731-764 | three delivered packets bring both endpoints Up |
| `BfdSession.Bfd.Configure` | lib/bfd.c:283-413 | the field updates compute the specified configuration |
| `BfdSession.Bfd.Run` | lib/bfd.c:462-491 | the field updates compute the specified tick |
| `BfdSession.Bfd.PutPacket` | lib/bfd.c:504-578 | the packet sent and the new timers are the specified ones |
| `BfdSession.Bfd.ProcessPacket` | lib/bfd.c:606-769 | the field updates compute the specified reaction to a packet |
| `BfdRuns.Drive` | lib/bfd.c:283-769 | a session object through any run: the packets sent, each without Poll and Final together, with intervals of at least 100 ms before conversion, the own discriminator, and the peer's while Init or Up |
| `BfdRuns.EveryPacketOk` | lib/bfd.c:504-578 | the same of the specification, over every run |
| `BfdRuns.FinalAnswersPoll` | lib/bfd.c:704-719 | in every run a packet carries Final exactly if a Poll was believed since the packet before it (section 6.5 of RFC 5880) |
| `BondModel.MoveKeepsBooks` | lib/bond.c:739-760 | a shift never subtracts more than the slave carries and keeps each load the sum of its entries, the total, and the entries that may still move |
| `BondModel.LoadWithinTotal` | lib/bond.c:847-859 | no slave's load exceeds the total |
| `BondModel.InsertBesideStale` | lib/bond.c:808-827 | while one slave's place is out of date, reinserting another puts it right among the rest |
| `BondModel.ResortSorts` | lib/bond.c:823-827 | reinserting both slaves one at a time gives a sorted permutation of the list |
| `Bond.ChooseEntry` | lib/bond.c:770-803 | returns the first entry that passes the test, or none exactly if there is no choice or none passes |
| `Bond.BuildBals` | lib/bond.c:861-870 | a sorted list of exactly the enabled slaves |
| `Bond.ShiftLoad` | lib/bond.c:872-907 | the loop ends, turn by turn as specified: the chosen entry moves and the list is sorted anew, or the top slave leaves it; the books stay exact; it stops exactly when at most one slave is left or the extremes are close |
| `Bond.TakeTurn` | lib/bond.c:886-906 | one turn, which moves an entry or drops the top slave |
| `Bond.TurnLowersPeakExactly` | lib/bond.c:886-906 | a turn leaves the highest load no higher exactly if the entry is no larger than the overload |
| `Bond.PeakRises` | lib/bond.c:770-803 | every loop from certain loads ends with a higher highest load |
| `Bond.BalanceLoads` | lib/bond.c:847-918 | every load equals the sum of its entries, the total is conserved, each entry moves at most once, off its own slave onto an enabled one, and then all entries fade |
| `Bond.Bond.Rebalance` | lib/bond.c:834-919 | the same for the object, with the time check and the revalidation flag |
| `BondLink.PendingHasCause` | lib/bond.c:1345-1377 | a change is pending exactly while the link disagrees with the slave, and since a steady period began |
| `BondLink.ChangeNeedsSteadyLink` | lib/bond.c:1345-1377 | a slave changes only after the link was steady for the whole delay |
| `BondLink.SteadyLinkTakesEffect` | lib/bond.c:1345-1377 | a link that is steady for the delay always takes effect |
| `BondLink.Slave.LinkStatusUpdate` | lib/bond.c:1345-1377 | the field updates compute the specified step |
| `BondLink.Slave.Enable` | lib/bond.c:1333-1342 | sets the flag, cancels a pending change and reports whether the flag changed |
| `Actions.Execute` | datapath/actions.c:510-573 | for every action list, with samples nested to any depth, failing actions and failing clones, the outputs, upcalls, packet contents and error are those of the interpreter that clones at each output but a last one; and the packet is released once, or not at all if kept, exactly if the samples taken, or all actions, succeed |
| `Actions.ExecuteOne` | datapath/actions.c:438-461 | the same for one action, with the recursion into a sample |
| `Actions.SentinelIsNoPort` | datapath/actions.c:391-406 | the port number that reads as "no output waiting" is no vport's |
| `Actions.ReleasedOnceExactly` | datapath/actions.c:541-573 | a packet handed over is released once exactly if every sample taken succeeds on the packet it gets; a kept one is never released exactly if every action succeeds |
| `Actions.PlainSamplesReleaseOnce` | datapath/actions.c:438-461 | a list with no rewrite inside a sample always releases exactly once |
| `Actions.KeepingCostsNothing` | datapath/actions.c:563-571 | with memory for the clones, keeping the packet changes nothing that is seen |
| `Actions.NestedFailureReleasesTwice` | datapath/actions.c:438-461 | a list that releases the packet twice |
| `LoopGuard.GuardExact` | datapath/actions.c:577-626 | from an idle CPU execution equals the unguarded one if that nests at most MAX_LOOPS deep; otherwise the flow does nothing from then on; the CPU is idle again either way |
| `LoopGuard.GuardInvisible` | datapath/actions.c:596-626 | below the limit the guard changes nothing, at any depth of nesting |
| `LoopGuard.LoopSuppressed` | datapath/actions.c:586-626 | beyond the limit the flow loses its actions, and every outer level notices |
| `LoopGuard.Cpu.ExecuteActions` | datapath/actions.c:596-626 | the updates of the counter, the flag and the actions compute the specified guard |
| `Csum.Finish` | lib/csum.c:80-86 | folding computes the one's-complement checksum of any 32-bit sum |
| `Csum.Continue` | lib/csum.c:59-70 | the loop adds all words and a trailing byte modulo 2^32 |
| `Csum.ChecksumOf` | lib/csum.c:30-33 | the checksum of the data exactly when the sum does not wrap or wraps harmlessly, and always up to 131074 bytes |
| `Csum.WrapHarmlessExactly` | lib/csum.c:59-86 | which lost multiples of 2^32 leave the checksum as it is |
| `Csum.SumCanWrap` | lib/csum.c:59-70 | data one byte longer that make the sum wrap and the checksum wrong |
| `Csum.OddDataPadded` | lib/csum.c:59-70 | the trailing byte counts as RFC 1071 wants exactly on little-endian machines, or if it is zero |
| `Csum.Recalc16Exact` | lib/csum.c:91-103 | the incremental update of a 16-bit field equals recomputation exactly if the new data are not all zero |
| `Csum.Recalc32Exact` | lib/csum.c:108-113 | the same for a 32-bit field |
| `Csum.Recalc128Exact` | lib/csum.c:118-130 | the same for a 128-bit field |
| `Csum.SumZero` | lib/csum.c:59-70 | words add up to zero exactly if every byte is zero |
| `Csum.Recalc128` | lib/csum.c:118-130 | the loop over four words computes the specified update |
| `Byteq.Run` | lib/byteq.c:28-200 | in every run of puts, gets and direct access at either end, until an operation is not allowed: what came out followed by what is queued is what was put in, in order, and as much came out as was asked for, across wraps of the counters and of the buffer |
| `Byteq.Byteq.Put` | lib/byteq.c:69-74 | appends one byte |
| `Byteq.Byteq.PutN` | lib/byteq.c:79-90 | appends all bytes, split where the buffer ends |
| `Byteq.Byteq.Get` | lib/byteq.c:103-110 | takes the oldest byte |
| `Byteq.Byteq.AdvanceTail` | lib/byteq.c:169-173 | drops the oldest bytes |
| `Byteq.Byteq.AdvanceHead` | lib/byteq.c:196-200 | appends what the caller stored at the head |
| `Byteq.Byteq.StoreInPlace` | lib/byteq.c:178-191 | storing at the head leaves the queue as it is |
| `Byteq.SlotIsMod` | lib/byteq.c:161-181 | the position of a counter in the buffer is its remainder |
| `Byteq.Byteq.TailroomIsFront` | lib/byteq.c:151-156 | the contiguous bytes at the tail are the oldest ones, in order |
| `Byteq.RingStore` | lib/byteq.c:79-90 | storing after the last byte appends, wherever the ring wraps |
| `Byteq.FillLevelFitsExactly` | lib/byteq.c:39-49 | every fill level fits a C int exactly for sizes up to 2^30 |

## Left out

- Everything outside the files named above: dpif, vports, netdev, connection handling, daemon, CFM, LACP and the tables of constants in AES and CRC code.
- Threads, locks and RCU: operations are atomic steps. FlowChains shows what a reader sees between two of them.
- Memory allocation, except where a result of the flow commands or of action execution depends on it.
- Logging, unixctl commands, statistics and string formatting.
- Hash functions: arbitrary functions. The enumeration order of hash maps: any order.
- Packet parsing (ovs_flow_extract) and header rewriting: a rewrite is an arbitrary function on packets that may fail.
- Classifier: tables and lists are sequences held in the object's field, so list nodes and their aliasing are not captured; the cached hash of a rule is recomputed.
- BfdSession: the session is one record in the object's field, and the methods that are not listed above state the same update as a function. The decay counter is unbounded; check_tnl_key, the Ethernet destination and the forwarding override are not modelled.
- Bond: the 256 hash entries are a sequence, not an array. The choice of the active slave, output selection, registration of slaves and LACP are not modelled; nor is wrap-around of 64-bit byte counters, which LoadWithinTotal rules out while the total fits.
- Bond.ChooseEntry: the ratios are exact reals, not doubles, so an entry whose ratio lies within rounding of a threshold may be chosen differently.
- Datapath: chains are sequences there; FlowChains gives the linked form of insertion and rehashing, but not of removal. The state is one record in the object's field. KEY_BYTES and the word size are those of a 64-bit little-endian machine. Parsing of the message before the lock is taken is not part of NewOrSet and Delete, which start from the key, mask and range it yields.
- FlowNetlink: a payload is a list of fields, and one of the wrong length is any list that does not fit; padding and byte order are not modelled. Fields that share storage in struct sw_flow_key are kept apart, so a message with attributes of two network protocols, which the parser accepts, may set fewer fields here than in memory. The mask attributes are not modelled.
- LoopGuard: a table maps flows to their actions, and output to a port may start the execution of another flow at once, as an internal device does.
- Byteq: reading from and writing to file descriptors. The bitwise AND with the size less one is counting around the ring, which SlotIsMod equates with the remainder.
