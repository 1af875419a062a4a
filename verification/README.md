# Verified model of gdnsd

gdnsd is an authoritative DNS server. This project models how it answers a query and
the data structures that stand behind that, in Dafny 4.11, and proves what they promise.
`dafny verify dfyconfig.toml` checks all of it.

The main results, each over all inputs, runs or histories:

- **A whole query** (`Process.ProcessQuery`). Every packet gets the verdict its bytes call for,
  and the packet's own question is answered: what is sent is, byte for byte, a header with the
  query's ID, the flags, the code and the counts, then the response and the OPT record. An
  untruncated response holds exactly the records its header counts; each is read in what is
  sent, with the names that were meant; and together they are what the database has for the
  question: the whole CNAME chain, the answer, the authority and the additional section, which
  `Answering.ResponseUnique` shows to be determined by the question. It is within the client's
  size. A response is truncated exactly if body and glue do not fit, and its counts are then right
  exactly when no CNAME was followed; `Miscounted.CnameStillCounted` has a query where they are not.
- **Name compression** (`Message.EveryNameDecodes`, `Message.DecodesExactly`,
  `Message.EveryMatchIsLongest`). Whatever is appended, the exact condition under which a name
  decodes, which every name that starts at or below 16384 meets; and the suffix replaced by a
  pointer is always the longest one available, although targets are searched only as far as they
  are literal.
- **Lookup** (`LabelTree.LTree.SearchLtree`). The search through hash tables refines the rule of
  the standards, and the byte depth it returns leads `chase_auth_ptr` to the zone's name.
- **Loading and validation** (`PostProcessing.PostProcess`, `Validation.ValidateTree`,
  `Validation.NoStaticChainTooLong`). Whatever records are added, in whatever order, what passes
  the walks over the tree is a database from which every query can be answered. The walks pass
  exactly the trees that can be served, with and without strict data. Their bound on CNAME chains,
  checked in one zone, covers run-time chains that move into ever deeper zones.
- **Referrals** (`NsGlue.ServersHaveAddresses`, `NsGlue.GlueUnderOwnName`). After validation name
  servers inside a zone have addresses; a referral that has glue and is not truncated carries all
  of it, whole, each set under its server's own name.
- **Interning and the arena** (`Interner.SameCopyIffSameName`, `Arena.Arena.Malloc`).
- **Timers** (`TimerDelivery.RunTimers`). The heap, its cached times and back-pointers, and delivery
  in the order of expiry, from the heap to the call.
- **Smaller cores**: the weighted chooser, the monitor's automaton, names as text.

Where the code does less than one would expect, the code is modelled as it is and the exact
condition is proved: `Message.DecodesExactly` with `Message.BeyondReach` (matches beyond offset
16384), `Process.LimitHolds` with `Process.RepeatedSubnets` (repeated client-subnet options),
`Process.TruncatedCounts` with
`Miscounted.CnameStillCounted` (counts after a CNAME), `Monitor.DownExactly` (a threshold of 1),
`DnameText.RoundTrip` (dots and backslashes in labels, which the printer does not escape), and
`Weighted.FlagAsDocumented` with `Weighted.WeightsAsDocumented`: the manual of the weighted plugin
says that below the up threshold failure is signalled and addresses are chosen as if all were up;
the code signals success when all addresses are down, and keeps to the live weights until then.

## Layout

| files | component |
|---|---|
| `Names`, `Decoder`, `Sections` | names in wire form; reference readers for names and records |
| `Compression`, `Message`, `Records`, `Additional`, `Encoder` | the packet under construction |
| `LookupRule`, `Bits`, `ChildTable`, `LabelTree`, `CnameChain`, `Validation` | the tree of names, its search and its validation |
| `Loading`, `PostProcessing` | records added to the tree, and the database that results |
| `Response`, `Answering`, `Truncation`, `NsGlue`, `QueryDecoder`, `Process`, `Miscounted` | from a query to the response |
| `Interner`, `Arena` | where names and zone data are kept |
| `TimerHeap`, `Timers`, `TimerDelivery` | the event loop's timers |
| `Weighted`, `Monitor`, `DnameText`, `DnameCodec`, `DnameZone` | the smaller cores |

Buffers that the server fills from the front are modelled by the part written so far. Random
draws and plugin results are arbitrary: loops start at any record, a dynamic address or CNAME
set holds whatever its plugin returned for the query, and the client-subnet scope is a parameter.
A watcher, a tree node and a stored copy of a name are identified by their index.

## Model

| member | source | states |
|---|---|---|
| `Compression.WalkFinds` | gdnsd/dnspacket.c:472-492 | the parallel walk finds a suffix the two names share, if there is one below the limits, and the first such; it finds nothing only if there is none |
| `Compression.SearchFinds` | gdnsd/dnspacket.c:457-496 | over all targets, the search ends with a real match in some target, or with none; no target offers an earlier one within its literal part |
| `Compression.LiteralCopy` | gdnsd/dnspacket.c:452-504 | whatever a target shares past the point where it stopped being literal is literal in some earlier target |
| `Compression.MatchIsLongest` | gdnsd/dnspacket.c:452-504 | the suffix replaced by a pointer is the longest label-aligned suffix shared with any recorded target, though each is searched only up to its `comp_ptr` |
| `Compression.StoreSound` | gdnsd/dnspacket.c:435-518 | after a compressed store, in a message of any length, every target still resolves label by label, and the new name reads back if its match lies below offset 16384, as every match does in a message of at most 16384 bytes |
| `Compression.UnreachableReads` | gdnsd/dnspacket.c:506-511 | a match at or beyond 16384 makes a pointer to another place, and the name reads as meant exactly if by chance the same labels are there |
| `Compression.StoreWholeSound` | gdnsd/dnspacket.c:417-432 | the same after an uncompressed store |
| `Compression.StoreCovers` | gdnsd/dnspacket.c:500-504 | recording a partly compressed name keeps the targets such that cut-off parts are covered by earlier ones |
| `Message.StartInv` | gdnsd/dnspacket.c:1785-1790 | the client's question, in any letter case, with its lowercased copy as target 0, meets the invariant |
| `Message.StepInv` | gdnsd/dnspacket.c:417-574 | every append (fixed bytes, compressed name, whole name, repeated name) keeps the invariant |
| `Message.EveryNameDecodes` | gdnsd/dnspacket.c:417-574 | over every sequence of appends, to any length, every name whose match was below offset 16384, and so every name that starts at or below 16384, decodes strictly (section 4.1.4 of RFC 1035) to the name meant, up to ASCII case; pointers lead strictly back to literal labels |
| `Message.DecodesExactly` | gdnsd/dnspacket.c:498-511 | the exact condition, after every sequence of appends: a stored name decodes if and only if its match is below 16384 or the pointer happens to lead to the same labels |
| `Message.EveryMatchIsLongest` | gdnsd/dnspacket.c:452-504 | over every sequence of appends, compression never misses the longest shared suffix |
| `Message.RepeatDecodes` | gdnsd/dnspacket.c:541-571 | a repeated name, be it root, pointer or label, reads exactly as the name it repeats |
| `Message.PointerReach` | gdnsd/dnspacket.c:508-511 | a pointer holds its offset exactly when that is below 16384 |
| `Message.BeyondReach` | gdnsd/dnspacket.c:498 | a run from a root question on which the condition fails: record data, then a name stored at 16383, and the next name, which shares its suffix, does not decode |
| `Encoder.WalkCandidate` | gdnsd/dnspacket.c:472-492 | the loop over one target is the specified walk |
| `Encoder.FindBest` | gdnsd/dnspacket.c:457-496 | the loop over all targets is the specified search, early exit included |
| `Encoder.Context.StoreDname` | gdnsd/dnspacket.c:435-518 | the bytes, the targets and the stored names after `store_dname` |
| `Encoder.Context.StoreWhole` | gdnsd/dnspacket.c:417-432 | the same after `store_dname_nocomp` |
| `Encoder.Context.RepeatName` | gdnsd/dnspacket.c:527-574 | the same after `repeat_name` into the packet |
| `Encoder.ChaseAuthPtr` | gdnsd/dnspacket.c:1586-1612 | terminates on every packet where the name decodes, and returns a place that decodes to the name's suffix `depth` bytes on |
| `Records.PutRecordOk` | gdnsd/dnspacket.c:856-1128 | every record keeps all promises about names and is one record by the reference reader |
| `Records.PutRecordReads` | gdnsd/dnspacket.c:856-1128 | a reader of the packet gets back the record's owner, fixed fields, data length and data |
| `Records.ListedHolds` | gdnsd/dnspacket.c:1862-1864 | records read one after the other can be stepped over, and nothing is left |
| `Encoder.Context.EncodeRecord` | gdnsd/dnspacket.c:931-956 | owner, fixed fields and data, with the length patched in afterwards, are the record specified |
| `Encoder.Context.EncodeAddrs` | gdnsd/dnspacket.c:583-708 | `limit` distinct addresses, in a round from any start, become records |
| `Additional.TurnIsRound` | gdnsd/dnspacket.c:583-598 | a rotating loop visits every index once from any start |
| `Additional.FixAddrLimits` | gdnsd/ltree.c:776-785 | a limit in effect never exceeds the count and is 0 only for no addresses |
| `Encoder.Context.EncodeRrset` | gdnsd/dnspacket.c:856-888 | every record of a set once, in a round; each additional rrset added is one a record leads to, under that record's name; all are present if the list has room; the glue flag set exactly if some record has glue |
| `Encoder.Context.EncodeAnyAddr` | gdnsd/dnspacket.c:726-746 | both families as answer, each in a round, remembered against duplication |
| `Encoder.Context.EncodeOneFamily` | gdnsd/dnspacket.c:796-854 | the asked-for family as answer, the other one as additional records under the same name |
| `Encoder.Context.AddAddtlRrset` | gdnsd/dnspacket.c:748-794 | an address set ends up complete in the additional store, once, under the name it was asked for, unless it is the answer or the list is full |
| `Additional.AddtlPut` | gdnsd/dnspacket.c:771-794 | a record put keeps the store a run of whole records grouped in distinct rrsets, with owners that read in the packet |
| `Additional.UnwindTo` | gdnsd/dnspacket.c:1724-1729 | unwinding to the first n rrsets leaves a store that promises as much |
| `Additional.UnwindCarried` | gdnsd/dnspacket.c:1724-1729 | the rrsets kept are still complete, each under its owner's name |
| `Additional.CopiedExtra` | gdnsd/dnspacket.c:1731-1733 | once copied behind the packet every additional record reads, owner name included |
| `Additional.CopiedHolds` | gdnsd/dnspacket.c:1731-1733 | the copied section is exactly its records |
| `LookupRule.RunAnswerUnique` | gdnsd/dnspacket.c:1496-1584 | the lookup rule (section 4.3.2 of RFC 1034, section 3.3.1 of RFC 4592) gives every name one answer |
| `LookupRule.SearchesAgree` | gdnsd/ltree.c:668-740 | run-time and load-time search agree wherever the server has authority |
| `LookupRule.DescentAnswer` | gdnsd/dnspacket.c:1496-1584 | what a descent has seen when it can go no further is the rule's answer |
| `LabelTree.LTree.SearchLtree` | gdnsd/dnspacket.c:1496-1584 | refines the rule for every tree and name: deepest cut decides, exact node or the encloser's wildcard; `auth_depth` is where the zone's name starts; crossing is exact |
| `LabelTree.LTree.SearchDname` | gdnsd/ltree.c:668-740 | refines the load-time rule, with the exact node below delegations |
| `CnameChain.GlueNeverReached` | gdnsd/ltree.c:34-36 | no search for a name in wire form ends at or under the zero-length label |
| `Bits.MaskFormsAgree` | gdnsd/ltree.c:46-68 | both forms of `count2mask` agree on all 32-bit inputs |
| `Bits.MaskProperties` | gdnsd/ltree.c:46-68 | the mask is all ones, covers its argument, and is its own mask |
| `Bits.AndMask` | gdnsd/ltree.c:71-155 | masking with an all-ones number is the remainder by the table size |
| `ChildTable.FindChild` | gdnsd/ltree.c:103-123 | a lookup in a loading table is a lookup in the map it represents |
| `ChildTable.FindDirect` | gdnsd/dnspacket.c:1538-1556 | the same with the mask field used as it is |
| `ChildTable.Grow` | gdnsd/ltree.c:70-101 | doubling loses and duplicates no child |
| `ChildTable.FindOrAdd` | gdnsd/ltree.c:126-155 | a child is found, or the map gains exactly it; the size stays the mask of the count plus one |
| `ChildTable.FixMask` | gdnsd/ltree.c:1102-1116 | turning the count into a mask changes no lookup |
| `LabelTree.LTree.FindOrAddChild` | gdnsd/ltree.c:126-155 | a child node is found, or exactly one node is added under its label |
| `LabelTree.LTree.FindOrAddDname` | gdnsd/ltree.c:157-189 | the node for a name, with all nodes on the way, and the flags they get |
| `LabelTree.LTree.FixMasks` | gdnsd/ltree.c:1102-1116 | after the walk every table of the tree is in direct form and represents what it did |
| `CnameChain.ProcCname` | gdnsd/ltree.c:804-829 | fails exactly when more than the limit of static CNAMEs follow each other within the zone, or, with strict data, when the CNAME's target is authoritative in its zone and is missing or has no data |
| `Validation.CheckNode` | gdnsd/ltree.c:902-1054 | passes exactly if the node's chain is bounded in its zone, a CNAME is alone, a zone has SOA and NS, name servers inside the zone have addresses, and a delegation or what is below it has no wildcard, only NS and addresses, and at most the additional limit of servers; with strict data also only if the CNAME's target is there, the SOA's master is one of the zone's name servers, and servers in other zones and targets of PTR, MX, SRV and NAPTR records have addresses |
| `Validation.ProcNs` | gdnsd/ltree.c:831-893 | fails exactly for a server inside the zone, directly or below a delegation, without addresses, and with strict data for one that is known in another zone without; else the addresses are the zone's own glue for an outside name or those at the name, marked as glue for outside glue and below delegations of the zone, and the node whose glue is used is marked |
| `Validation.SetValidAddr` | gdnsd/ltree.c:743-757 | fails exactly if the target is authoritative in the zone and has no addresses |
| `Validation.ProcPhase2` | gdnsd/ltree.c:1023-1054 | the second walk: glue below delegations, and glue from outside at zone roots, is all used by some name server of the tree |
| `Validation.ValidateTree` | gdnsd/ltree.c:1060-1100 | both walks pass exactly if every node does, in the zone it is in, no delegation is below another, and with strict data no glue is unused; then the addresses of every name server have been found |
| `NsGlue.ServersHaveAddresses` | gdnsd/ltree.c:860-893 | after validation every name server inside its zone has exactly the addresses kept at its name, and they are glue if and only if the name is below a delegation |
| `NsGlue.OneName` | gdnsd/ltree.c:839-893 | glue belongs to one name: no other name server, by a wildcard or as glue from outside, has the same address set |
| `CnameChain.ChainCovered` | gdnsd/dnspacket.c:1635-1667 | a run-time chain of static CNAMEs, however deep its zones move, is a load-time chain from the first zone |
| `Validation.NoStaticChainTooLong` | gdnsd/ltree.c:804-829 | after validation no run-time chain of static CNAMEs passes the limit |
| `Validation.StrictTargetsThere` | gdnsd/ltree.c:807-817 | after strict validation no static CNAME leads, at run time, to a name of its own zone that is missing or empty |
| `Answering.OverDepthIsDynamic` | gdnsd/dnspacket.c:1642-1650 | the run-time over-depth branch is taken only through a dynamic CNAME |
| `Answering.ValidationSuffices` | gdnsd/ltree.c:935-983 | what validation checked, on what was loaded, is all the run-time code depends on |
| `Loading.DescentKeeps` | gdnsd/ltree.c:157-189 | descending to any name keeps the loaded data in order: records only where they were, flags only inside zones, glue nodes with addresses |
| `Loading.WithRecordKeeps` | gdnsd/ltree.c:416-434 | a record added to its set changes no other set, and no CNAME or address of the node |
| `Loading.ZoneData.AddZone` | gdnsd/ltree.c:1124-1127 | a zone root is set up, over the lone root or any zones before it |
| `Loading.ZoneData.AddCname` | gdnsd/ltree.c:351-411 | refused exactly at a zone root or beside another CNAME; else the node has it and nothing else changed |
| `Loading.ZoneData.AddNs` | gdnsd/ltree.c:446-461 | refused exactly for a wildcard or a full set, and with strict data for another TTL; else added, and off a zone root the node is a delegation |
| `Loading.ZoneData.AddSoa` | gdnsd/ltree.c:573-597 | refused exactly where there is one, and with strict data for a negative-cache time over 10800; else added, and its master is the one given |
| `Loading.ZoneData.AddRecord` | gdnsd/ltree.c:622-666 | refused exactly for a reserved type or a full set, and with strict data for another TTL; else the set has one more record |
| `Loading.ZoneData.AddDynAddr` | gdnsd/ltree.c:313-349 | refused exactly where there are addresses; else an address set that a plugin will fill |
| `Loading.ZoneData.AddAddr` | gdnsd/ltree.c:237-311 | refused exactly where a plugin gives the addresses or the family is full, and with strict data for another TTL or limit; else the set has one more address |
| `Loading.ZoneData.AddOozAddr` | gdnsd/ltree.c:241-246 | the same for glue from outside the zone, two steps below its root |
| `PostProcessing.AddedChecks` | gdnsd/ltree.c:1118-1146 | whatever records were added, in whatever order, the walk finds the tree as it needs it: names well formed, flags inside zones only, glue nodes with addresses |
| `PostProcessing.SettledValidated` | gdnsd/ltree.c:1141-1146 | once the walk has passed and its addresses are entered, the database is the validated one that all run-time results assume |
| `PostProcessing.PostProcess` | gdnsd/ltree.c:1140-1146 | masks, limits and both walks: whatever was loaded, it is accepted exactly if it may be served, and then every query can be answered from what results |
| `Response.GetRrset` | gdnsd/dnspacket.c:1186-1199 | the node's set of a type, where validation has seen to it |
| `Response.EncodePlain` | gdnsd/dnspacket.c:856-1128 | a set in the answer or authority section: its records in a round under the right owner, at the end of what was there; the additional rrsets its records lead to under their names; the glue flag; its count |
| `Response.EncodeCname` | gdnsd/dnspacket.c:1029-1079 | the CNAME record; in a chain the target's place becomes the current name and decodes to it |
| `Response.EncodeAny` | gdnsd/dnspacket.c:1130-1184 | every set of the node is shown whole, addresses first, in consecutive stretches that leave nothing else; the additional section is exactly what the other sets lead to; the glue flag is set exactly if one of their records has glue |
| `Response.EncodeAsked` | gdnsd/dnspacket.c:1466-1483 | the answer section is the first set matching the type and nothing else; the additional section is the other address family under the answer's name, whole, or what the set's records lead to; the glue flag |
| `Response.ConstructNormal` | gdnsd/dnspacket.c:1463-1492 | answer, then the zone's SOA for an empty one, or optionally its name servers; the additional section is what the records of both call for, all of it if the list has room; the glue flag is set exactly if one of them has glue |
| `Response.SearchQuestion` | gdnsd/dnspacket.c:1625-1629 | the question's lookup, with the zone's name found inside the question |
| `Response.SearchTarget` | gdnsd/dnspacket.c:1655-1666 | a target's lookup, with the chased place decoding to exactly the matched zone's name |
| `Answering.ChaseChain` | gdnsd/dnspacket.c:1625-1667 | the answer holds the chain's CNAMEs, each under the name it was found at, and none if a CNAME was asked for; it ends at a name without a CNAME to follow, outside the zone, or past the limit, with what each means |
| `Answering.AnswerDeleg` | gdnsd/dnspacket.c:1683-1688 | a referral: the delegation's name servers under the zone's name; the additional section is their address sets under their names, all if there is room; the glue flag |
| `Answering.AnswerFromDb` | gdnsd/dnspacket.c:1614-1698 | the response is what the database has for the question: the whole chain, the answer at its end, authority, additional section with its glue flag, response code and AA |
| `Answering.ResponseUnique` | gdnsd/dnspacket.c:1614-1698 | what a response says is determined: its chain, where that ends, the node and zone found, response code, AA and the number of records in each section |
| `Truncation.Trim` | gdnsd/dnspacket.c:1724-1729 | keeps exactly the longest prefix of whole rrsets that fits |
| `Truncation.FitOrTruncate` | gdnsd/dnspacket.c:1709-1735 | truncates exactly when answer, authority and glue do not fit; else all of those stay, and glue is never trimmed |
| `Truncation.AnswerOuter` | gdnsd/dnspacket.c:1700-1736 | for every question the response, before it is made to fit, is what the database has and nothing else, down to the additional store that decides what fits; it is truncated exactly if body and glue do not fit; otherwise as many additional rrsets stay as fit, and it reads back record by record, with right counts |
| `Truncation.GlueComplete` | gdnsd/ltree.c:1017-1054 | an untruncated referral with glue carries the whole address set of every name server that has one, under the name of a server that leads to it |
| `NsGlue.GlueUnderOwnName` | gdnsd/ltree.c:831-893 | and the glue of every server under that server's own name |
| `QueryDecoder.ScanName` | gdnsd/dnspacket.c:110-137 | finds the one uncompressed name ahead, lowercased, or reports that there is none |
| `QueryDecoder.ParseQuestion` | gdnsd/dnspacket.c:106-158 | succeeds exactly when a name of at most 255 bytes and four more bytes are ahead |
| `QueryDecoder.Request.HandleClientSubnet` | gdnsd/dnspacket.c:161-221 | accepts exactly well-formed options; what is set aside is the echoed option's size, in 32 bits |
| `QueryDecoder.Request.HandleOptions` | gdnsd/dnspacket.c:237-267 | an error exactly for an option that runs past the end or a client-subnet option that is not acceptable while those are looked at; the limit drops by what the acceptable ones reserve; the last of them is echoed |
| `QueryDecoder.Request.ParseOpt` | gdnsd/dnspacket.c:281-314 | BADVERS exactly for a version other than 0, FORMERR exactly for data past the end or bad options; else the limit is the client's size between 512 and the maximum, less the OPT record and what is reserved |
| `QueryDecoder.Request.DecodeQuery` | gdnsd/dnspacket.c:316-413 | exactly which packets, from a bare header up, are dropped, not implemented, in error or good, the question they ask, whether EDNS is used and what is echoed, and the limit for each transport |
| `Process.LimitHolds` | gdnsd/dnspacket.c:214 | for every query packet, the limit that decoding leaves keeps the response within what the client accepts exactly when what its options reserve fits, since the limit is a 32-bit difference |
| `Process.RepeatedSubnets` | gdnsd/dnspacket.c:214 | a legal query packet with n empty client-subnet options from a client that accepts 512 bytes: the options fit if and only if n is at most 62 |
| `Process.OneSubnetFits` | gdnsd/dnspacket.c:214 | the options of every packet with at most one client-subnet option fit |
| `Process.SealedNames` | gdnsd/dnspacket.c:1862-1864 | writing the header and adding the OPT record changes no name |
| `Process.SealedItems` | gdnsd/dnspacket.c:1862-1864 | nor any record, in the packet or copied behind it: owner, fixed fields, length and data read as before |
| `Process.HeaderReads` | gdnsd/dnspacket.c:1756-1867 | a reader finds the query's ID, opcode and RD, the AA and TC bits, the response code and the counts that were written |
| `Process.TruncatedCounts` | gdnsd/dnspacket.c:1710-1722 | a truncated response's counts are right exactly when it was not reached through a CNAME |
| `Miscounted.CnameStillCounted` | gdnsd/dnspacket.c:1710-1722 | a zone and a query for which every response is truncated behind a CNAME, with one answer counted that is not there |
| `Process.Begin` | gdnsd/dnspacket.c:1774-1790 | the reset context and the restated question meet every promise |
| `Process.ProcessQuery` | gdnsd/dnspacket.c:1738-1867 | for every packet with a header: dropped exactly if it is no answerable query; its verdict; the exact bytes of NOTIMP, FORMERR, BADVERS and CHAOS responses; otherwise header, body and OPT record of what the database has for the packet's own question, whole if body and glue fit, with the longest prefix of additional rrsets that fits, and else cut to the question; every record readable in what is sent, with right counts and within the client's size |
| `Interner.ProbesDiffer` | gdnsd/ltarena.c:147-163 | the first 2^n triangular probes go to different slots |
| `Interner.ProbesBounded` | gdnsd/ltarena.c:147-163 | a run of occupied probes is no longer than the number of names, so probing ends |
| `Interner.NameTable.DnamedupHashed` | gdnsd/ltarena.c:156-179 | the table refines a set of names, across growth |
| `Interner.NameTable.Grow` | gdnsd/ltarena.c:125-150 | twice the slots, every name where its probes find it |
| `Interner.SameCopyIffSameName` | gdnsd/ltarena.c:156-179 | over any sequence of calls, two return the same copy exactly for the same name |
| `Arena.Arena.Malloc` | gdnsd/ltarena.c:188-241 | for pointers of four or eight bytes, the block is aligned, inside its pool, and apart from all others with its red zones; fails exactly when the pools run out |
| `Arena.NextSize` | gdnsd/ltarena.c:219-229 | the doubling loop ends at a power of two within the limit that fits the request |
| `TimerHeap.EventLoop.UpHeap` | gdnsd/libgdnsd/libev/ev.c:1228-1247 | an entry out of order upwards settles: same entries, heap order, all back-pointers |
| `TimerHeap.EventLoop.DownHeap` | gdnsd/libgdnsd/libev/ev.c:1148-1190 | the same downwards |
| `TimerHeap.EventLoop.AdjustHeap` | gdnsd/libgdnsd/libev/ev.c:1250-1258 | the same either way |
| `TimerHeap.EventLoop.ReHeap` | gdnsd/libgdnsd/libev/ev.c:1260-1270 | any array becomes a heap of the same entries with right back-pointers |
| `TimerHeap.RootIsEarliest` | gdnsd/libgdnsd/libev/ev.c:1971-1984 | no timer is earlier than the root |
| `Timers.TimerStart` | gdnsd/libgdnsd/libev/ev.c:2698-2721 | enters the heap at its absolute time; all other timers stay; heap, cache and back-pointers hold |
| `Timers.TimerStop` | gdnsd/libgdnsd/libev/ev.c:2723-2751 | leaves heap and queue; all others stay |
| `Timers.TimerAgain` | gdnsd/libgdnsd/libev/ev.c:2753-2776 | a repeating timer is set off anew and keeps its place in the queue; an active one that does not repeat leaves heap and queue; any other stays as it is |
| `TimerDelivery.FeedEvent` | gdnsd/libgdnsd/libev/ev.c:896-911 | one more event for a pending watcher, a place at the end for another |
| `TimerDelivery.FeedReverseDone` | gdnsd/libgdnsd/libev/ev.c:920-926 | each queue gains exactly the fed watchers that were not pending, last fed first; the others get the event added; no other event changes |
| `TimerDelivery.TimersReify` | gdnsd/libgdnsd/libev/ev.c:2173-2209 | terminates; exactly the expired timers are queued, once each, in the order of their times, with the timer event; stopped ones lose an earlier place and no one else does; none is left expired |
| `TimerDelivery.InvokePending` | gdnsd/libgdnsd/libev/ev.c:2132-2146 | queues are emptied from their ends, highest priority first |
| `TimerDelivery.ReifiedCalled` | gdnsd/libgdnsd/libev/ev.c:2132-2209 | with the queues as `timers_reify` leaves them, emptying them calls every expired timer, and of two of one priority that were not waiting already, the earlier one first |
| `TimerDelivery.RunTimers` | gdnsd/libgdnsd/libev/ev.c:2132-2209 | `timers_reify` and `ev_invoke_pending` together: every expired timer is called, in that order |
| `Weighted.DrawsAreWeight` | plugins/weighted/weighted.c:718-743 | exactly as many of the possible draws choose an item as its weight |
| `Weighted.MakeGroup` | plugins/weighted/weighted.c:276-284 | sum and maximum of a group's weights, within bounds |
| `Weighted.MakeSet` | plugins/weighted/weighted.c:418-426 | sum and maximum over groups; the sum fits 32 bits; the threshold is the ceiling of its share of the sum |
| `Weighted.CountsFit` | plugins/weighted/weighted.c:28-31 | no sum of weights that count passes 2^32 - 1 |
| `Weighted.ResolveMulti` | plugins/weighted/weighted.c:799-818 | a heaviest group is always included, one address of each |
| `Weighted.ResolveSingle` | plugins/weighted/weighted.c:819-840 | one group chosen by weight; every address of the group's greatest weight is included |
| `Weighted.Resolve` | plugins/weighted/weighted.c:745-845 | at least one address, none that is down unless all are; success is returned exactly if the live weight meets the threshold or every address is down |
| `Weighted.FlagAsDocumented` | plugins/weighted/gdnsd-plugin-weighted.pod:176-180 | the manual's promise that failure is signalled below the threshold holds if and only if some address is not down |
| `Weighted.AllDownSignalsSuccess` | plugins/weighted/weighted.c:785-795 | a set with one address, which is down, where the manual promises failure and the code returns success |
| `Weighted.WeightsAsDocumented` | plugins/weighted/gdnsd-plugin-weighted.pod:209-213 | the manual's promise that below the threshold addresses are chosen as if all were up holds if and only if the threshold is met or all are down |
| `Weighted.ResolveCname` | plugins/weighted/weighted.c:718-743 | the CNAME the draw falls on, joined with the origin if it is partial |
| `Monitor.StateManager.Update` | gdnsd/libgdnsd/monio.c:48-102 | the fields follow the automaton and every registered place holds the same state |
| `Monitor.Counters` | gdnsd/libgdnsd/monio.c:25-45 | the counters count consecutive successes and failures since UP, over every history |
| `Monitor.UpExactly` | gdnsd/libgdnsd/monio.c:55-70 | UP again exactly at the threshold's success in a row |
| `Monitor.DownExactly` | gdnsd/libgdnsd/monio.c:80-91 | DOWN exactly at the threshold's failure since UP, for every history, if and only if that threshold is at least 2 |
| `Monitor.NeverDown` | gdnsd/libgdnsd/monio.c:80-91 | with a threshold of 1 a service that was up never goes down by failing |
| `Monitor.NeverStraightDown` | gdnsd/libgdnsd/monio.c:80-86 | never UP to DOWN in one step |
| `DnameText.TextFits` | gdnsd/libgdnsd/dname.c:113-115 | no name prints to more than 1004 bytes |
| `DnameText.RoundTrip` | gdnsd/libgdnsd/dname.c:80-224 | parsing what was printed gives back the name, full or partial, exactly when it is lower case without dot or backslash in a label |
| `DnameCodec.LogfDname` | gdnsd/libgdnsd/log.c:156-198 | prints the name's text within the buffer |
| `DnameCodec.DnsUnescape` | gdnsd/libgdnsd/dname.c:80-107 | undoes escapes |
| `DnameCodec.FromString` | gdnsd/libgdnsd/dname.c:109-206 | the status and the name for every text |
| `DnameCodec.PrintAndParse` | gdnsd/libgdnsd/log.c:156-198 | printer and parser together, on stored names: the bytes come back exactly for clean names |
| `DnameZone.IsInZone` | gdnsd/libgdnsd/dname.c:302-325 | true exactly when the zone's labels are the name's last labels |
| `DnameZone.IsParentOf` | gdnsd/libgdnsd/dname.c:327-350 | the same for a proper ancestor |
| `DnameZone.DnameCat` | gdnsd/libgdnsd/dname.c:226-243 | the joined name, refused exactly when too long |

## Left out

- Encoder.Context.OwnerBytes: for a label beyond offset 16384 the owner of an additional record, which `repeat_name` then stores through a fallback (gdnsd/dnspacket.c:552-563), is arbitrary, so additional records and counts are claimed for bodies of at most 16384 bytes, the default maximum.
- Chains over the depth limit through dynamic CNAMEs: what is sent after the wipe (gdnsd/dnspacket.c:1642-1650) is not modelled; it is proved that nothing else leads there.
- QueryDecoder.Request.DecodeQuery: packets shorter than a header are excluded, because there the source, after its length check (gdnsd/dnspacket.c:324-327) has marked them to be dropped, goes on to read what an earlier packet left in the buffer; from twelve bytes on every packet is covered.
- Plugins: one query sees one result for each dynamic set; a dynamic CNAME met twice in a chain has the same target both times.
- Buffer capacities: packet and additional store are as large as needed.
- Loading.ZoneData.AddRecord: checks of field values (sizes of MX, SRV and NAPTR numbers, NAPTR flags and regular expressions, gdnsd/ltree.c:466-535) are left out. That CNAME and NS records are put at names inside zones, and zones set up before records, is asked of the zone scanner, which is not part of this model.
- Loading.ZoneData.AddDynAddr: whether the plugin exists; the addresses it gives for a query enter as that query's database, and its configured limits with them.
- Validation.SetValidAddr: the addresses it also stores for PTR, MX, SRV and NAPTR targets; in the results on responses those are any well-formed sets.
- Validation.ValidateTree: the limit on a delegation's servers, which the source checks in the second walk, is checked in the first, and the second goes through the nodes in the order they were made; warnings without strict data are logging.
- Interner.NameTable: copies are not tied to addresses in the arena; the mask may grow past 32 bits.
- Timers: ev_timer_remaining, periodic timers and all other watchers; rounding of times.
- TimerDelivery.InvokePending: callbacks that start, stop or feed watchers while queues are emptied are left out, because they are the application's.
- TimerDelivery.RunTimers: the same.
- Monitor: the failure counter does not wrap at 32 bits.
- Weighted: the threshold is computed in exact arithmetic, not in floating point; configuration parsing.
- gdnsd_dname_status and gdnsd_dname_from_raw; names in the text model are well formed.
- Zone and configuration scanning, sockets, threads, statistics, logging, libev's backends: input and output, or easy members.
