# Verified models of accel-ppp

accel-ppp is an access concentrator for PPP, PPPoE, L2TP and IPoE sessions. This project models the
parts of it whose correctness rests on reasoning that spans many functions or many interleaved steps,
and proves what they promise. Everything is stated for all inputs, all reachable states or all runs.

| file | component |
|---|---|
| `RbTree.dfy` | the in-place red-black tree with parent pointers, and its use as an index of PPPoE services |
| `Bitmap.dfy`, `IpRange.dfy`, `IpPool.dfy` | the bitmap allocator, IPv4 ranges, pools with overflow chains, leases and live reload |
| `Ipv6Range.dfy` | the byte-wise 128-bit arithmetic and the prefixes of an IPv6 range |
| `Dhcpv6Options.dfy`, `Dhcpv6Fields.dfy`, `Dhcpv6Builder.dfy` | the DHCPv6 option parser, the fields of options, the append-only builder |
| `Dhcpv6Relay.dfy`, `Dhcpv6Datagram.dfy`, `Dhcpv6Packet.dfy` | relay envelopes and the receive path, whole datagrams as bytes, the reply packet |
| `ForkLimit.dfy`, `ForkScripts.dfy` | the fork limiter and the child reaper as interleaved steps of sessions and reaper; what every script goes through |
| `LogWriter.dfy` | the log writer as interleaved steps of producers, teardown and the writer thread |
| `PppFsm.dfy`, `PppTable.dfy` | the PPP automaton with restart counter and timer, and its comparison with the table of RFC 1661 |
| `PppLayers.dfy` | registration and start-up order of the PPP layers |
| `ConnLimit.dfy` | the connection limiter |
| `JsonString.dfy` | the JSON string writer |
| `Base.dfy`, `Powers.dfy` | options and bytes; powers of two, shifts and bits |

How the code's world is represented:

- Objects that the program updates in place are classes or arrays: tree nodes, the bitmap words, the
  packet buffer, the iovec array, the automaton, the fork queue, the pool service, the limiter.
- Threads that share state are state machines. One step is one critical section of the program, one
  unlocked access, or one round of a loop over thread-private data. A theorem about runs then covers
  every interleaving of such steps.
- Integers are unbounded where the source's width plays no role. Where it does, it is written out:
  32-bit peer addresses, 64-bit bitmap words and indices, 16-bit option lengths, the 8-bit identifier.
- Clocks, random numbers, allocation failures and results of system calls are parameters or events.

Where the code differs from what one might expect, the model follows the code:

- The PPP automaton departs from the state transition table of section 4.1 of RFC 1661 in a few places.
  `TableExactly` says in which, and that it agrees with the table everywhere else; `DepartsTo` says what it does there.
- A negotiating or closing PPP layer does not always have its restart timer running: one that leaves
  Opened by a packet of the peer other than a Terminate-Request has not, and a Terminate-Ack stops the timer
  in every state. `EnteringArms` and `StayingArmed` say exactly when it runs in all five such states;
  `RenegotiationUntimed` and `StoppingUntimed` are runs that wait without one, for ever by `UntimedStays`.
- A Configure-Request that uses up the failure limit stays unanswered and leaves the state as it is.
  `AnsweredExactly` says when a request is answered, and `OpenedUnanswered` is a run that ends Opened with
  the peer's latest request unanswered; `OpenedMeansAgreed` shows that this is the only exception.
- The walk along an overflow chain that loops without returning to its start does not end while all its
  pools are full; `LoopingSet` is such a set of pools. `EndsExactly` says when the walk ends: exactly when within
  as many hops as there are pools the chain is over, is back at its start or reaches a pool with a free block.
  `Search` is proved wherever the walk ends, `Endless` says what happens otherwise, and `ChainsEnd` that the
  usual chains always end.
- Start functions of PPP layers are called once only because lcp and auth are alone in their nodes;
  `AgainExactly` says when a node with more layers would start the next one again.
- The prefixes of an IPv6 range end exactly at the end of the range if and only if its start is aligned
  (`AlignedEnd`, `UnalignedEnd`); `MissedEnd` is a range that is accepted all the same.
- An option added under an option that is not a container is written all the same. `AddKeepsLegal` and
  `BuiltParses` say exactly which additions keep the packet parseable.
- An option is always appended at the end of the packet, whatever option it is added under. `AddedExactly` says
  when that makes it the last option inside its parent: exactly when everything behind the parent, if anything,
  consists of copies of the new option. `OffEdge` is an addition that goes wrong, `OffEdgeCopy` one that does not
  although something is behind the parent.

Assumptions, each part of the statements: the ranges of one pool set have disjoint peer addresses; pids are
not reused; the fork limit is fixed and positive in the interleaving model; writes to log files are complete,
and a condition wait returns only when signalled; opening a session's log file and looking at its pending
messages is one step, as the session's own thread does both; nobody logs to a file after its session tore it
down; a PPP layer reports started, passive or finished only after its start function was called; the
connection limiter's calls are serialised on a non-decreasing millisecond clock.

## Model

| member | source | states |
|---|---|---|
| RbTree.RotateLeft | accel-pppd/rbtree.c:26-47 | turns the subtree in place: parent links, child links and the root pointer represent the rotated tree, nothing else changes |
| RbTree.RotateRight | accel-pppd/rbtree.c:49-70 | the mirror image |
| RbTree.RotLOrder | accel-pppd/rbtree.c:26-47 | a left rotation keeps the in-order sequence |
| RbTree.InsertColor | accel-pppd/rbtree.c:72-135 | from a tree whose only fault is one red node under a possibly red parent: a red-black tree with the same in-order sequence |
| RbTree.EraseColor | accel-pppd/rbtree.c:137-221 | from a tree with one subtree a black level short: a red-black tree with the same in-order sequence, through all eight mirrored cases |
| RbTree.EraseRoundLeft | accel-pppd/rbtree.c:144-180 | one round on the left side either closes the fault or moves it strictly upwards |
| RbTree.EraseRoundRight | accel-pppd/rbtree.c:181-217 | one round on the right side either closes the fault or moves it strictly upwards |
| RbTree.SwapWithSuccessor | accel-pppd/rbtree.c:232-268 | the successor takes the node's place, colour and links, also when it is the node's own right child; the sequence loses exactly the node |
| RbTree.UnlinkNode | accel-pppd/rbtree.c:270-283 | a node with at most one child is replaced by that child in links, parent link and root |
| RbTree.Erase | accel-pppd/rbtree.c:223-288 | for every valid tree and every node in it: a valid tree whose in-order sequence is the old one with exactly that node removed |
| RbTree.LinkNode | accel-pppd/include/rbtree.h:170-177 | a red leaf is hung into an empty slot, the rest of the tree unchanged |
| RbTree.Insert | accel-pppd/rbtree.c:72-135 | linking and rebalancing at any empty slot puts the node at exactly that place of the sequence and restores all invariants |
| RbTree.EverySlot | accel-pppd/include/rbtree.h:170-177 | every position of the in-order sequence is the position of some empty slot |
| RbTree.Add | accel-pppd/ctrl/pppoe/disc.c:164-183 | the search insert succeeds exactly when the key is new, keeps the tree sorted and valid, and adds only the node; a duplicate changes nothing |
| RbTree.Remove | accel-pppd/ctrl/pppoe/disc.c:192-199 | removal keeps the tree sorted and valid and removes only the node |
| RbTree.PlugInOrder | accel-pppd/rbtree.c:72-221 | the in-order sequence of a tree around a subtree is what precedes, the subtree's sequence, what follows |
| RbTree.DepthByHeight | accel-pppd/rbtree.c:72-221 | depth is at most twice the black height, and the black height at most log2(n+1) |
| RbTree.DepthBound | accel-pppd/rbtree.c:26-288 | the depth of every red-black tree is at most 2*log2(n+1) |
| Bitmap.BitOps | accel-pppd/extra/bitpool.h:23-36 | setting, clearing and masking a bit of a 64-bit word changes that bit and no other |
| Bitmap.Set | accel-pppd/extra/bitpool.h:23-26 | the array gets exactly this bit set |
| Bitmap.Clear | accel-pppd/extra/bitpool.h:28-31 | the array gets exactly this bit cleared |
| Bitmap.SetBit | accel-pppd/extra/bitpool.h:23-26 | every other bit of the bitmap is as before |
| Bitmap.ClearBit | accel-pppd/extra/bitpool.h:28-31 | every other bit of the bitmap is as before |
| Bitmap.CountTrailingZeros | accel-pppd/extra/bitpool.h:79 | the lowest set bit of a non-zero word |
| Bitmap.FindFree | accel-pppd/extra/bitpool.h:47-86 | the cyclically first clear bit at or after the start within the count, and the invalid value exactly when all bits are set |
| IpRange.AddRange | accel-pppd/extra/ippool.c:253-296 | accepted exactly when not reversed, not empty for the allocator and within the cap |
| IpRange.PeerAddrExact | accel-pppd/extra/ippool.c:673-674 | 32-bit address arithmetic does not wrap inside a range |
| IpRange.BitAddress | accel-pppd/extra/ippool.c:194-212 | looking up the address of a block gives the block back |
| IpRange.AddressBit | accel-pppd/extra/ippool.c:194-212 | an address that is in the range is the address of the block looked up |
| IpRange.Finalize | accel-pppd/extra/ippool.c:299-331 | exactly the gateway's bit is taken below the count, all bits past it are set, and the counter agrees |
| IpRange.Reserve | accel-pppd/extra/ippool.c:804-814 | one more bit taken, the counter still the number of set bits |
| IpRange.Release | accel-pppd/extra/ippool.c:683-701 | the bit is free, the counter still the number of set bits |
| IpRange.Grant | accel-pppd/extra/ippool.c:634-652 | the bit is taken, the cursor moves behind it, the counter follows |
| IpRange.CyclicFairness | accel-pppd/extra/ippool.c:633-652 | between two grants of the same bit of a range every other bit was taken at some moment |
| IpPool.FindTarget | accel-pppd/extra/ippool.c:553-598 | a range that contains the address, and none only when no range of the set does |
| IpPool.TargetFirst | accel-pppd/extra/ippool.c:553-598 | of all ranges that contain the address the first in list order, one of the preferred pool before all others |
| IpPool.SameTarget | accel-pppd/extra/ippool.c:553-598 | the choice depends only on the configured ranges, not on what is taken |
| IpPool.Search | accel-pppd/extra/ippool.c:633-652 | the first free block along ranges and overflow chain from the start pool; none exactly when the whole chain is full; whenever the walk ends |
| IpPool.ChainsEnd | accel-pppd/extra/ippool.c:633-652 | the walk ends on every chain that ends or returns to its start |
| IpPool.EndsExactly | accel-pppd/extra/ippool.c:633-652 | the walk ends exactly when, within as many hops as there are pools, the chain is over, is back at its start or reaches a pool with a free block |
| IpPool.LoopingSet | accel-pppd/extra/ippool.c:398-410 | a default pool without ranges whose overflow pool names itself: the walk does not end |
| IpPool.Endless | accel-pppd/extra/ippool.c:633-652 | where it does not end, it visits one full pool after the other for ever |
| IpPool.ChainsStay | accel-pppd/extra/ippool.c:602-881 | no step changes a chain, except a reload that brings its own |
| IpPool.PoolFor | accel-pppd/extra/ippool.c:619-622 | the first named pool with the session's pool name, none if there is none; the default pool for a session without a name |
| IpPool.IpPools.GetIp | accel-pppd/extra/ippool.c:602-681 | fails without change exactly when there is no pool with the session's pool name or the chain from it is exhausted; otherwise one free block is leased, with its peer address, the gateway as own address of a PPP session and no prefix length, or taken back when the record cannot be allocated; the invariant is kept |
| IpPool.IpPools.PutIp | accel-pppd/extra/ippool.c:683-701 | unlists the session and frees exactly its block, if it is still attached |
| IpPool.IpPools.Reload | accel-pppd/extra/ippool.c:846-881 | a failed build changes nothing; otherwise a block of the new set is taken exactly when it is the gateway's or some listed session lives on its address, wherever that came from; leases are reattached, and the sessions to disconnect are exactly the orphans for which a list node could be allocated |
| IpPool.BuildSet | accel-pppd/extra/ippool.c:448-549 | every range of a new set has exactly its gateway block taken |
| IpPool.ReconcileOne | accel-pppd/extra/ippool.c:790-838 | one session's address is reserved in the range found for it, and its lease attached there |
| IpPool.ReconcileAll | accel-pppd/extra/ippool.c:790-838 | after all listed sessions exactly their claims are reserved; no address changes; the orphans are listed but for those without a list node |
| IpPool.OrphanExactly | accel-pppd/extra/ippool.c:790-838 | a reload keeps every address, and a lease is orphaned exactly when no new range contains it |
| IpPool.ReloadedExactly | accel-pppd/extra/ippool.c:790-881 | after a reload a block is taken if and only if it is the gateway's or a session has its peer address, from these pools or not |
| IpPool.FreshAddress | accel-pppd/extra/ippool.c:827-836 | a lease granted right after a reload has the address of no listed session |
| IpPool.StepAccounted | accel-pppd/extra/ippool.c:602-881 | every step keeps the account: a block is taken exactly when it is leased or was set aside and not released since |
| IpPool.BlocksAccounted | accel-pppd/extra/ippool.c:602-881 | in every run the taken blocks are exactly the leased ones and those set aside, and only a reload sets blocks aside, the gateway's and those of addresses the pools do not own |
| IpPool.GetKeepsInv | accel-pppd/extra/ippool.c:602-681 | a grant keeps addresses distinct and attached leases on set bits |
| IpPool.PutKeepsInv | accel-pppd/extra/ippool.c:683-701 | a release keeps the invariant: no other lease loses its bit |
| IpPool.RollbackKeepsInv | accel-pppd/extra/ippool.c:659-667 | a grant taken back keeps the invariant |
| IpPool.UngetKeepsInv | accel-pppd/extra/ippool.c:659-667 | giving the block back later, after other steps, keeps the invariant too |
| IpPool.RollbackIsSteps | accel-pppd/extra/ippool.c:633-667 | a failed lease is the grant and the return as two separate steps |
| IpPool.ReloadKeepsInv | accel-pppd/extra/ippool.c:846-881 | a reload keeps the invariant; no lease refers to the old set |
| IpPool.StepKeepsInv | accel-pppd/extra/ippool.c:602-881 | every step keeps the invariant |
| IpPool.RunSafe | accel-pppd/extra/ippool.c:602-881 | in every run, the two halves of a failed lease being separate steps: leases, orphans included, have distinct addresses, attached leases have their bit set, each counter equals the number of set bits |
| IpPool.SetFairness | accel-pppd/extra/ippool.c:633-652 | cyclic fairness of every range within runs of a whole pool set |
| IpPool.PlainExactly | accel-pppd/extra/ippool.c:602-701 | plain steps are steps of every run, and without shuffling they are exactly the steps of the service other than a reload |
| IpPool.RunIsChanges | accel-pppd/extra/ippool.c:602-701 | a run of plain steps is a run of single changes, with each lease as the grant of its bit |
| IpPool.ServiceFairness | accel-pppd/extra/ippool.c:602-701 | in every run of the service without shuffling and reload, between two leases of the same block every other block of its range was taken at some moment |
| Ipv6Range.Compare | accel-pppd/extra/ipv6pool.c:113-125 | the byte-wise comparison orders the 128-bit values |
| Ipv6Range.Subtract | accel-pppd/extra/ipv6pool.c:128-141 | the borrow loop is subtraction modulo 2^128 |
| Ipv6Range.ShiftRight | accel-pppd/extra/ipv6pool.c:144-161 | the bit loop is division by 2^shift, refused exactly when the quotient exceeds 64 bits |
| Ipv6Range.PlaceIndex | accel-pppd/extra/ipv6pool.c:164-176 | the placed bits of the index, those beyond bit 127 dropped |
| Ipv6Range.IndexToAddr | accel-pppd/extra/ipv6pool.c:164-184 | start plus index times 2^shift, modulo 2^128 |
| Ipv6Range.AddrToBit | accel-pppd/extra/ipv6pool.c:187-210 | the index of the prefix that starts at the address, invalid exactly when none does |
| Ipv6Range.LastAddress | accel-pppd/extra/ipv6pool.c:294-308 | the start with all host bits set |
| Ipv6Range.AddPrefix | accel-pppd/extra/ipv6pool.c:252-340 | accepted exactly for admissible lengths, with a count of at most 2^(prefix length - mask) |
| Ipv6Range.SpanBound | accel-pppd/extra/ipv6pool.c:310-320 | the quotient of an accepted range never reaches 2^(prefix length - mask) |
| Ipv6Range.AlignedEnd | accel-pppd/extra/ipv6pool.c:252-340 | with an aligned start the last prefix ends at the end of the range |
| Ipv6Range.UnalignedEnd | accel-pppd/extra/ipv6pool.c:252-340 | and only then |
| Ipv6Range.MissedEnd | accel-pppd/extra/ipv6pool.c:252-340 | a range whose start ends in 1 is accepted, and its prefixes of 16 addresses miss its end |
| Ipv6Range.Partition | accel-pppd/extra/ipv6pool.c:164-210 | with an aligned start every address of the range lies in exactly one prefix, and no other address in any |
| Ipv6Range.RoundTrip | accel-pppd/extra/ipv6pool.c:164-210 | looking up the address of index i gives i, for every i below the count |
| Dhcpv6Options.ValidateAftrName | accel-pppd/ipv6/dhcpv6_packet.c:68-85 | accepts exactly terminated sequences of labels of 1 to 63 bytes within 4 to 255 bytes |
| Dhcpv6Options.ParseOption | accel-pppd/ipv6/dhcpv6_packet.c:87-138 | the pointer walk computes the parser function on the bytes up to the end pointer |
| Dhcpv6Options.ParseOptions | accel-pppd/ipv6/dhcpv6_packet.c:129-133 | the same for a sequence of options |
| Dhcpv6Options.ParseManySound | accel-pppd/ipv6/dhcpv6_packet.c:87-138 | what is parsed is legal and encodes to exactly the bytes read |
| Dhcpv6Options.ParseManyComplete | accel-pppd/ipv6/dhcpv6_packet.c:87-138 | the encoding of every legal forest is accepted and parsed to it |
| Dhcpv6Options.ParseExactly | accel-pppd/ipv6/dhcpv6_packet.c:87-138 | bytes parse to a forest if and only if the forest is legal and they are its encoding |
| Dhcpv6Fields.LayoutSize | accel-pppd/ipv6/dhcpv6.h:106-147 | the shortest payload of every option is the size of its fields |
| Dhcpv6Fields.ContainerReadBack | accel-pppd/ipv6/dhcpv6_packet.c:38-62 | an identity association, address or prefix made of its fields and legal inner options parses to just these, and every field reads back |
| Dhcpv6Fields.LeafReadBack | accel-pppd/ipv6/dhcpv6_packet.c:38-62 | any other option parses with its fields in front, which read back, and does not without them |
| Dhcpv6Fields.NameWellFormed | accel-pppd/ipv6/dhcpv6_packet.c:68-85 | every sequence of labels of 1 to 63 bytes makes a well-formed name |
| Dhcpv6Fields.NameOfLabels | accel-pppd/ipv6/dhcpv6_packet.c:68-85 | and every well-formed name is one |
| Dhcpv6Builder.PlacedExactly | accel-pppd/ipv6/dhcpv6_packet.c:312-343 | under any option, patching the lengths of the ancestors and appending gives the forest that was meant if and only if the new option's bytes may change places with everything behind its parent |
| Dhcpv6Builder.SwapsExactly | accel-pppd/ipv6/dhcpv6_packet.c:312-343 | bytes of options may change places with those of one option if and only if each of them has that option's bytes |
| Dhcpv6Builder.AddedExactly | accel-pppd/ipv6/dhcpv6_packet.c:312-343 | so an addition under any option is what was meant if and only if only copies of the new option are behind its parent |
| Dhcpv6Builder.NothingBehind | accel-pppd/ipv6/dhcpv6_packet.c:312-343 | an option with nothing behind it is on the right edge, where adding under it is adding at its depth |
| Dhcpv6Builder.EncodeAddAt | accel-pppd/ipv6/dhcpv6_packet.c:312-343 | adding an option on the right edge is patching the lengths of its ancestors and appending its bytes |
| Dhcpv6Builder.EdgeAddAt | accel-pppd/ipv6/dhcpv6_packet.c:312-343 | the new option's header lies at the old end, its ancestors' headers where they were |
| Dhcpv6Builder.HandlesSurvive | accel-pppd/ipv6/dhcpv6_packet.c:312-343 | handles on the ancestors stay valid after an addition |
| Dhcpv6Builder.AddKeepsLegal | accel-pppd/ipv6/dhcpv6_packet.c:285-343 | an addition keeps the forest legal if and only if the option is legal and its parent a container |
| Dhcpv6Builder.AddNeverRepairs | accel-pppd/ipv6/dhcpv6_packet.c:285-343 | no later addition makes an illegal forest legal |
| Dhcpv6Builder.BuiltParses | accel-pppd/ipv6/dhcpv6_packet.c:285-343 | for every run of additions the bytes parse back to the intended forest if and only if every addition was proper |
| Dhcpv6Packet.PatchUp | accel-pppd/ipv6/dhcpv6_packet.c:337-340 | the loop over the parents adds the length to exactly the ancestors' length fields |
| Dhcpv6Packet.Packet.OptionAlloc | accel-pppd/ipv6/dhcpv6_packet.c:285-310 | refused without change exactly when the option does not fit into 4096 bytes; otherwise its bytes are appended, and a buffer that held the encoding of a forest holds that of the forest with it added |
| Dhcpv6Packet.Packet.NestedOptionAlloc | accel-pppd/ipv6/dhcpv6_packet.c:312-343 | the same for an option under any option: the lengths of all its ancestors grow and its bytes are appended; the buffer then holds the forest with it added if and only if only copies of it are behind its parent, as on the right edge, where the new handle leads on |
| Dhcpv6Packet.OffEdge | accel-pppd/ipv6/dhcpv6_packet.c:312-343 | with another container behind the parent the bytes are not the encoding of what was meant |
| Dhcpv6Packet.OffEdgeCopy | accel-pppd/ipv6/dhcpv6_packet.c:312-343 | with a copy of the new option behind the parent they are |
| Dhcpv6Packet.Packet.constructor | accel-pppd/ipv6/dhcpv6_packet.c:370-402 | message type and transaction behind room for the envelopes, no options |
| Dhcpv6Packet.AllocReply | accel-pppd/ipv6/dhcpv6_packet.c:370-418 | fails exactly when envelopes, header and both identifiers exceed the buffer; otherwise holds the request's envelopes in order and both identifiers; the envelopes leave the request either way, as far as they fit |
| Dhcpv6Packet.MoveRelays | accel-pppd/ipv6/dhcpv6_packet.c:387-395 | moves all envelopes out of the request in order, or as many as leave room for a message header |
| Dhcpv6Packet.Packet.FillRelayInfo | accel-pppd/ipv6/dhcpv6_packet.c:345-368 | the packet becomes the message wrapped in all its envelopes |
| Dhcpv6Packet.ReplyMeaning | accel-pppd/ipv6/dhcpv6_packet.c:345-418 | for every accepted request the wrapped reply unwraps to the same envelope chain and the message built, whose options parse back |
| Dhcpv6Packet.AddAll | accel-pppd/ipv6/dhcpv6_packet.c:285-343 | a run of additions on the handles it returns builds the intended forest behind the options already there, and fails exactly when they do not all fit |
| Dhcpv6Packet.Reply | accel-pppd/ipv6/dhcpv6.c:283-512 | nothing is sent exactly when the reply exceeds the buffer; otherwise the request's envelopes around header, both identifiers and the options added |
| Dhcpv6Packet.WrapEnveloped | accel-pppd/ipv6/dhcpv6_packet.c:345-368 | a reply is, byte for byte, its envelopes with nothing but the Relay-Message in them around the message |
| Dhcpv6Packet.Answer | accel-pppd/ipv6/dhcpv6.c:283-917 | from received bytes to sent bytes: whatever request the bytes hold is answered exactly when it names its client and there is room; what is sent is the request's envelopes around type, its transaction, both identifiers and the additions, and the options parse back if and only if the server identifier is legal and every addition proper |
| Dhcpv6Relay.UnwrapWrap | accel-pppd/ipv6/dhcpv6_packet.c:171-225 | up to eight envelopes are read back with hop count, link and peer address, in order |
| Dhcpv6Relay.EnvelopeAt | accel-pppd/ipv6/dhcpv6_packet.c:345-368 | envelope k starts at byte 38k and its Relay-Message option ends exactly at the end of the packet |
| Dhcpv6Relay.FindRelayMsg | accel-pppd/ipv6/dhcpv6_packet.c:192-220 | finds the only Relay-Message option of at least four bytes, fails on none, two or a malformed option |
| Dhcpv6Relay.Screen | accel-pppd/ipv6/dhcpv6_packet.c:227-251 | rejects an option before parsing exactly when it makes the packet unacceptable whatever follows |
| Dhcpv6Relay.ParseTop | accel-pppd/ipv6/dhcpv6_packet.c:227-256 | parses the options of the innermost message, at most one AFTR-Name and one empty Rapid-Commit, last identifiers kept |
| Dhcpv6Relay.ParsePacket | accel-pppd/ipv6/dhcpv6_packet.c:140-263 | the whole receive path computes exactly the meaning of the datagram |
| Dhcpv6Datagram.ScanFinds | accel-pppd/ipv6/dhcpv6_packet.c:192-220 | the one Relay-Message is found among any other options |
| Dhcpv6Datagram.ScanSound | accel-pppd/ipv6/dhcpv6_packet.c:192-220 | what is accepted is one Relay-Message among other options |
| Dhcpv6Datagram.UnwrapEnveloped | accel-pppd/ipv6/dhcpv6_packet.c:171-225 | up to eight envelopes, written as bytes with other options around, are read back in order with hop count, link and peer address |
| Dhcpv6Datagram.UnwrapSound | accel-pppd/ipv6/dhcpv6_packet.c:171-225 | nothing but such envelopes around a message is accepted |
| Dhcpv6Datagram.RequestComplete | accel-pppd/ipv6/dhcpv6_packet.c:140-263 | every datagram of envelopes, type, three transaction bytes and legal options is accepted as just these, with the last identifiers and the Rapid-Commit flag |
| Dhcpv6Datagram.RequestSound | accel-pppd/ipv6/dhcpv6_packet.c:140-263 | every accepted datagram is made of these bytes |
| ForkLimit.ForkQueue.CheckForkLimit | accel-pppd/extra/pppd_compat.c:105-121 | takes a slot below the limit, else joins the script's queue at its end; without a limit nothing happens |
| ForkLimit.ForkQueue.ForkQueueWakeup | accel-pppd/extra/pppd_compat.c:75-103 | hands the slot to the head of queue 0, else of queue 1, else lowers the count |
| ForkLimit.ReleaseSlots | accel-pppd/extra/pppd_compat.c:75-103 | a vacated slot is handed on or uncounted, keeping the account exact |
| ForkLimit.ServedInOrder | accel-pppd/extra/pppd_compat.c:75-121 | whoever stops waiting was the head of the queue and owns the next slot; queue 1 is served only when queue 0 is empty |
| ForkLimit.StepServes | accel-pppd/extra/pppd_compat.c:75-121 | one step serves at most one head, and newcomers join at the end |
| ForkLimit.RunFifo | accel-pppd/extra/pppd_compat.c:75-121 | over any run those waiting plus those joining are those served plus those still waiting, in this order, for each queue |
| ForkLimit.StepSafe | accel-pppd/extra/sigchld.c:21-115 | every step of sessions, reaper and unregistration keeps the invariant |
| ForkLimit.RunSafe | accel-pppd/extra/sigchld.c:21-115 | so does every interleaving |
| ForkLimit.SlotsAccounted | accel-pppd/extra/pppd_compat.c:202-421 | in every interleaving slots held equal the count and never exceed the limit, each slot handed out is held in one place or was given back exactly once, and a waiter exists only when all are taken |
| ForkLimit.NoExitLost | accel-pppd/extra/sigchld.c:52-65 | a reaped pid without a listed handler belongs to an unregistered one |
| ForkLimit.NothingLeaks | accel-pppd/extra/sigchld.c:21-115 | with all children reaped and the reaper idle no handler holds a slot |
| ForkLimit.ThreadProgress | accel-pppd/extra/sigchld.c:76-115 | taking a reference, registering, dropping the reference and starting to unregister wait for nothing but the list lock |
| ForkLimit.HandlerEnds | accel-pppd/extra/sigchld.c:66-70 | from every state the at most three steps of the reaper inside a handler are possible one after the other |
| ForkLimit.ListLockFreed | accel-pppd/extra/sigchld.c:85-100 | the two locks never deadlock: a session that keeps the list lock while it waits for a handler lock gives it up after at most those steps and its own |
| ForkScripts.BeginExactly | accel-pppd/extra/pppd_compat.c:105-121 | a script that begins owns the next slot if one is free, and otherwise waits at the end of the queue of its kind |
| ForkScripts.StageExactly | accel-pppd/extra/pppd_compat.c:202-421 | a session goes on only when a script is skipped, over or could not be forked |
| ForkScripts.StepUnderway | accel-pppd/extra/pppd_compat.c:202-421 | every step of anybody takes a script on along its way, from slot to fork to exit, or ends it |
| ForkScripts.ScriptOutcome | accel-pppd/extra/pppd_compat.c:202-421 | in every interleaving a script that began ends only after its session owned a slot, and then because the fork failed, ip-up was forked, or ip-pre-up or ip-down was forked and its child was reaped |
| LogWriter.AddEntry | accel-pppd/logs/log_file.c:169-175 | an entry is added, or all entries are written and then the finished messages freed |
| LogWriter.AddMessage | accel-pppd/logs/log_file.c:166-185 | header and chunks of a message are entered in order; unwritten entries belong to kept messages or to this one |
| LogWriter.Drain | accel-pppd/logs/log_file.c:166-188 | written plus unwritten entries grow by exactly the pieces of the list, freed plus kept messages by exactly the list, and unwritten entries belong to kept messages |
| LogWriter.TokenStep | accel-pppd/logs/log_file.c:110-218 | every step keeps the queued flag equal to the file's one entry into the writer's work |
| LogWriter.OutStep | accel-pppd/logs/log_file.c:110-218 | every step writes exactly what is due next |
| LogWriter.OnceStep | accel-pppd/logs/log_file.c:99-193 | every step keeps each message in exactly one place |
| LogWriter.RunSafe | accel-pppd/logs/log_file.c:110-218 | all of it over every interleaving |
| LogWriter.QueuedOnce | accel-pppd/logs/log_file.c:110-218 | in every interleaving a file is queued or in hand at most once and exactly when flagged, an open file with messages is flagged, and the record is freed exactly when torn down and not flagged |
| LogWriter.SentIsProduced | accel-pppd/logs/log_file.c:203-218 | after every run a file was sent exactly the messages the events produce for it, in order and with all their chunks |
| LogWriter.WrittenInOrder | accel-pppd/logs/log_file.c:110-193 | in every interleaving the output is a prefix of the headers and chunks of the messages the events produce, each once and in order, and all of them once the file is idle |
| LogWriter.NoUseAfterFree | accel-pppd/logs/log_file.c:99-193 | no message is freed twice, and none that an unwritten entry refers to |
| LogWriter.FreedIsWritten | accel-pppd/logs/log_file.c:99-193 | in every interleaving a freed message was written with header and all chunks it was produced with, unless its file was never opened |
| LogWriter.IdleKeepsOne | accel-pppd/logs/log_file.c:99-193 | in every interleaving at most one message more is kept from being freed than there are unwritten entries, so an idle writer keeps at most one |
| LogWriter.WriterReady | accel-pppd/logs/log_file.c:110-201 | while a file is queued, in hand or about to be queued, the writer or that producer can make a step |
| LogWriter.WriterDrains | accel-pppd/logs/log_file.c:110-201 | however these steps are scheduled there are finitely many without new messages, and when none is left every open file has received all that was sent to it |
| LogWriter.RecordFreedOnce | accel-pppd/logs/log_file.c:412-434 | after a record is freed no step touches or frees it again |
| PppFsm.Layer.constructor | accel-pppd/ppp/ppp_fsm.c:28-40 | the initial state |
| PppFsm.Layer.LowerUp | accel-pppd/ppp/ppp_fsm.c:46-66 | state, timer, counters and emitted actions after the call are those of the transition function, and the layer is open, or has acked or been acked, only as agreed with the peer; false is returned exactly for a failed send in Starting |
| PppFsm.Layer.LowerDown | accel-pppd/ppp/ppp_fsm.c:68-93 | state, timer, counters and emitted actions after the call are those of the transition function, and the layer is open, or has acked or been acked, only as agreed with the peer |
| PppFsm.Layer.Open | accel-pppd/ppp/ppp_fsm.c:95-125 | state, timer, counters and emitted actions after the call are those of the transition function, and the layer is open, or has acked or been acked, only as agreed with the peer; false is returned exactly for a failed send in Closed |
| PppFsm.Layer.Close | accel-pppd/ppp/ppp_fsm.c:127-157 | state, timer, counters and emitted actions after the call are those of the transition function, and the layer is open, or has acked or been acked, only as agreed with the peer |
| PppFsm.Layer.Close2 | accel-pppd/ppp/ppp_fsm.c:159-163 | state, timer, counters and emitted actions after the call are those of the transition function, and the layer is open, or has acked or been acked, only as agreed with the peer |
| PppFsm.Layer.Timeout0 | accel-pppd/ppp/ppp_fsm.c:165-184 | the expiry that sends another request, whatever the counter |
| PppFsm.Layer.Timeout1 | accel-pppd/ppp/ppp_fsm.c:186-210 | the expiry that gives up, whatever the counter |
| PppFsm.Layer.RestartTimer | accel-pppd/ppp/ppp_fsm.c:517-527 | state, timer, counters and emitted actions after the call are those of the transition function, and the layer is open, or has acked or been acked, only as agreed with the peer, the counter deciding between a further request and the end |
| PppFsm.Layer.RecvConfReqAck | accel-pppd/ppp/ppp_fsm.c:212-245 | state, timer, counters and emitted actions after the call are those of the transition function, and the layer is open, or has acked or been acked, only as agreed with the peer |
| PppFsm.Layer.RecvConfReqNak | accel-pppd/ppp/ppp_fsm.c:247-281 | state, timer, counters and emitted actions after the call are those of the transition function, and the layer is open, or has acked or been acked, only as agreed with the peer |
| PppFsm.Layer.RecvConfReqRej | accel-pppd/ppp/ppp_fsm.c:283-321 | state, timer, counters and emitted actions after the call are those of the transition function, and the layer is open, or has acked or been acked, only as agreed with the peer; at the failure limit the request stays unanswered |
| PppFsm.Layer.RecvConfAck | accel-pppd/ppp/ppp_fsm.c:323-357 | state, timer, counters and emitted actions after the call are those of the transition function, and the layer is open, or has acked or been acked, only as agreed with the peer |
| PppFsm.Layer.RecvConfRej | accel-pppd/ppp/ppp_fsm.c:359-401 | state, timer, counters and emitted actions after the call are those of the transition function, and the layer is open, or has acked or been acked, only as agreed with the peer |
| PppFsm.Layer.RecvTermReq | accel-pppd/ppp/ppp_fsm.c:403-425 | state, timer, counters and emitted actions after the call are those of the transition function, and the layer is open, or has acked or been acked, only as agreed with the peer |
| PppFsm.Layer.RecvTermAck | accel-pppd/ppp/ppp_fsm.c:427-452 | state, timer, counters and emitted actions after the call are those of the transition function, and the layer is open, or has acked or been acked, only as agreed with the peer |
| PppFsm.Layer.RecvUnknown | accel-pppd/ppp/ppp_fsm.c:454-457 | state, timer, counters and emitted actions after the call are those of the transition function, and the layer is open, or has acked or been acked, only as agreed with the peer |
| PppFsm.Layer.RecvCodeRejPerm | accel-pppd/ppp/ppp_fsm.c:459-469 | state, timer, counters and emitted actions after the call are those of the transition function, and the layer is open, or has acked or been acked, only as agreed with the peer |
| PppFsm.Layer.RecvCodeRejBad | accel-pppd/ppp/ppp_fsm.c:471-495 | state, timer, counters and emitted actions after the call are those of the transition function, and the layer is open, or has acked or been acked, only as agreed with the peer |
| PppFsm.AgreedStep | accel-pppd/ppp/ppp_fsm.c:46-495 | every event keeps: Ack-Sent and Opened mean that the latest answer was an Ack, given to the peer's latest request unless that used up the failure limit, and Ack-Rcvd and Opened that the peer acked the latest request sent, all since negotiation was entered |
| PppFsm.OpenedMeansAgreed | accel-pppd/ppp/ppp_fsm.c:46-495 | in every event sequence Opened means that, since negotiation was last entered, the latest answer to the peer was a Configure-Ack, the peer's latest request was the one acked or was left unanswered at the failure limit, and the peer's Configure-Ack came after the latest Configure-Request |
| PppFsm.AnsweredExactly | accel-pppd/ppp/ppp_fsm.c:212-321 | a Configure-Request is answered exactly when the layer negotiates, is stopped or open and the failure limit is not used up, and with the answer decided on |
| PppFsm.OpenedUnanswered | accel-pppd/ppp/ppp_fsm.c:296-303 | with a failure limit of one, a run that ends Opened with the peer's latest request unanswered |
| PppFsm.ExpiresSoFar | accel-pppd/ppp/ppp_fsm.c:165-184 | while the counter lasts the timer keeps running and each expiry sends one request |
| PppFsm.ExpiresExactly | accel-pppd/ppp/ppp_fsm.c:165-210 | with counter c exactly c more requests, then Closed or Stopped, the layer reported finished once and the timer off |
| PppFsm.OneOpen | accel-pppd/ppp/ppp_fsm.c:46-125 | an unanswered open or link-up from every state: max-configure Configure-Requests in all, one less when the first could not be sent from Closed, none when it could not be sent otherwise; in the other states nothing is sent, timer and counters stay, and the state moves only from Initial or, on an open, from Closing to Closed |
| PppFsm.OneClose | accel-pppd/ppp/ppp_fsm.c:127-157 | an unanswered close sends max-terminate + 1 Terminate-Requests in all |
| PppFsm.OpenedUntimed | accel-pppd/ppp/ppp_fsm.c:212-357 | the timer never runs while the layer is Opened |
| PppFsm.EnteringArms | accel-pppd/ppp/ppp_fsm.c:46-452 | a negotiating or closing state is entered with the timer running exactly when it is not entered from Opened, or from there by an open, a close or a Terminate-Request |
| PppFsm.StayingArmed | accel-pppd/ppp/ppp_fsm.c:165-495 | between negotiating and closing states the timer stops exactly on a Terminate-Ack, and starts exactly when a Reject or Nak is followed up, a negotiating layer is closed or a stopping one opened |
| PppFsm.UntimedStays | accel-pppd/ppp/ppp_fsm.c:497-527 | without its timer no passage of time changes anything |
| PppFsm.RenegotiationUntimed | accel-pppd/ppp/ppp_fsm.c:235-241 | a run that ends in Ack-Sent with no timer |
| PppFsm.StoppingUntimed | accel-pppd/ppp/ppp_fsm.c:475-480 | a run that a bad Code-Reject leaves in Stopping with no timer |
| PppFsm.UpDownExactly | accel-pppd/ppp/ppp_fsm.c:46-495 | layer-up is reported exactly on entering Opened; layer-down exactly on leaving it other than by close2, and when negotiation is given up in the states where the code reports it |
| PppFsm.FinishedExactly | accel-pppd/ppp/ppp_fsm.c:46-495 | layer-finished is reported exactly when a negotiating or closing layer ends in Closed or Stopped, a starting layer is closed, or negotiation is given up without an Ack outstanding |
| PppTable.TableExactly | accel-pppd/ppp/ppp_fsm.c:46-495 | new state and actions are those of the table in section 4.1 of RFC 1661 if and only if the event is not one of the named departures |
| PppTable.DepartsTo | accel-pppd/ppp/ppp_fsm.c:46-495 | what the program does in each departure |
| PppTable.AgreementDecides | accel-pppd/ppp/ppp_fsm.c:46-495 | in every event sequence a negotiating or open layer is Opened exactly when each side has acked the other's latest request, Ack-Sent when only we have, Ack-Rcvd when only the peer has, Req-Sent when neither has |
| PppTable.BothAcksOpen | accel-pppd/ppp/ppp_fsm.c:212-357 | from every Req-Sent state the two Acks in either order end Opened, with layer-up reported once |
| PppTable.CounterExactly | accel-pppd/ppp/ppp_fsm.c:46-495 | the restart counter is loaded with the limits where the code does so, and otherwise goes down by one with every request sent |
| PppTable.CountsExactly | accel-pppd/ppp/ppp_fsm.c:247-401 | refusals in negotiation are counted as failures, and the identifier moves on with every Ack, Nak or Reject |
| PppTable.UntimedExactly | accel-pppd/ppp/ppp_fsm.c:46-495 | the exact condition for a running timer in the states that need none |
| PppLayers.RegisterLayer | accel-pppd/ppp/ppp.c:632-675 | nodes stay in strict order and non-empty; the layer is added at the end of its order, all other orders are as before, an unknown name changes nothing |
| PppLayers.RegisterAll | accel-pppd/ppp/ppp.c:642-675 | after any sequence of registrations each order holds exactly its layers, in the sequence they came |
| PppLayers.FirstNodes | accel-pppd/ppp/ppp.c:632-675 | with lcp and auth registered once each, in any order among others, lcp is alone in the first node and auth in the second, and at most one node follows |
| PppLayers.RegisteredFresh | accel-pppd/ppp/ppp.c:678-706 | so every session made from them begins in a state the start order theorem covers |
| PppLayers.CheckNode | accel-pppd/ppp/ppp.c:529-536 | up exactly when every layer is started or passive and a non-optional one is started |
| PppLayers.PppSession.StartFirstLayer | accel-pppd/ppp/ppp.c:725-738 | schedules the first node, keeping the invariant |
| PppLayers.PppSession.CallStart | accel-pppd/ppp/ppp.c:543-549 | one start call of the loop, which ends at a failure, keeping the invariant |
| PppLayers.PppSession.NodeReported | accel-pppd/ppp/ppp.c:524-551 | nothing until the node is up, then the next node is scheduled or the session activated |
| PppLayers.PppSession.LayerStarted | accel-pppd/ppp/ppp.c:553-561 | counts once per layer, keeping the invariant |
| PppLayers.PppSession.LayerPassive | accel-pppd/ppp/ppp.c:563-571 | ignored for a started layer, keeping the invariant |
| PppLayers.PppSession.SetPassiveFlag | accel-pppd/ppp/ppp_ccp.c:700-704 | a layer sets or clears its own passive flag without a report, keeping the invariant |
| PppLayers.StepKeeps | accel-pppd/ppp/ppp.c:524-571 | every event, changes of passive flags included, keeps: start functions called at most once, and only in scheduled nodes |
| PppLayers.StartedOnceInOrder | accel-pppd/ppp/ppp.c:524-571 | in every run, whichever layers begin passive: each start is called at most once, and beyond the first node only after the layer before reported started |
| PppLayers.NoneForgotten | accel-pppd/ppp/ppp.c:524-551 | in every run without a failed start, once the loop is through, every layer of the first node was started, and every layer of each node behind one that is up |
| PppLayers.AgainExactly | accel-pppd/ppp/ppp.c:524-571 | a node that is up schedules the next one again exactly when a layer of it reports that was only passive; with one layer in the node a repeated report changes nothing |
| PppLayers.ActivatesOnlyUp | accel-pppd/ppp/ppp.c:538-540 | activation is attempted only by a report of the last node, with that node up and the session starting |
| PppLayers.ActivatesWhenUp | accel-pppd/ppp/ppp.c:538-540 | and every new report that finds it up attempts it |
| ConnLimit.Limiter.Sweep | accel-pppd/extra/connlimit.c:43-73 | walking to the key drops exactly the expired entries in front of it |
| ConnLimit.Limiter.Check | accel-pppd/extra/connlimit.c:29-104 | verdict and table are those of a limiter that never evicts, and the list loses exactly the expired entries in front of the key |
| ConnLimit.AcceptedAfterLimit | accel-pppd/extra/connlimit.c:57-62 | a call is accepted when none of the key was accepted within the limit-timeout before it, whatever was refused |
| ConnLimit.BurstAccepted | accel-pppd/extra/connlimit.c:48-67 | when none of the key was accepted within the burst-timeout, the next calls are accepted up to the number of the burst |
| ConnLimit.VerdictsApart | accel-pppd/extra/connlimit.c:29-104 | every verdict on a key depends on its own calls alone |
| ConnLimit.KeysApart | accel-pppd/extra/connlimit.c:29-104 | calls of other keys make no difference to a key's verdicts |
| ConnLimit.AcceptsFrom | accel-pppd/extra/connlimit.c:48-67 | accepted calls are bounded by bursts and late calls that take up their timeouts one after the other |
| ConnLimit.AcceptBound | accel-pppd/extra/connlimit.c:29-104 | at most burst*(1+W/timeout)+W/limit accepted calls in the first W milliseconds of an entry |
| ConnLimit.KeyBound | accel-pppd/extra/connlimit.c:29-104 | the same bound inside any run of calls by all keys, for an entry created for the first time or again |
| JsonString.LeadMasks | accel-pppd/extra/metrics.c:754-770 | the bit masks select exactly the byte ranges used in the model |
| JsonString.SeqSound | accel-pppd/extra/metrics.c:746-779 | an accepted sequence is the UTF-8 encoding of a scalar value |
| JsonString.SeqComplete | accel-pppd/extra/metrics.c:746-779 | the encoding of every scalar value is accepted, whatever follows |
| JsonString.Utf8SeqLen | accel-pppd/extra/metrics.c:746-779 | the length of the well-formed sequence, zero if there is none, without reading past the terminator |
| JsonString.AppendJsonString | accel-pppd/extra/metrics.c:781-840 | appends the quoted body of the string, without reading past the terminator |
| JsonString.MeaningExactly | accel-pppd/extra/metrics.c:743-779 | well-formed text means its scalar values, and a byte at which no well-formed sequence begins is passed over alone, as one U+FFFD |
| JsonString.JsonRoundTrip | accel-pppd/extra/metrics.c:781-840 | the output is a well-formed JSON string that decodes to the input, every byte that starts no well-formed sequence read as U+FFFD |
| JsonString.OutputIsUtf8 | accel-pppd/extra/metrics.c:781-840 | the output is valid UTF-8 |

## Left out

- Backup restore into pools: it can attach a lease to a bit that is already set, which needs another invariant.
- A permanent reservation of the gateway address: a session that holds it at a reload is attached to that bit and later frees it.
- IPv6 leases and their reload (`alloc_from`, `reconcile_na`, `reconcile_pd`): the bookkeeping is that of the IPv4 pools; the IPv6 arithmetic underneath is modelled.
- IpPool.IpPools.GetIp: ranges and lease records are values in a reassigned pool set; update in place, reference counts and pointers between leases and ranges are not captured, only bitmap words are an array.
- Parsing of range and prefix text, RADIUS pool attributes, and the command line output of the pools.
- Dhcpv6Packet.Packet.OptionAlloc: the payload is written together with the header, while the program's callers fill it in afterwards.
- Dhcpv6Packet.Answer: which options a reply gets and the server identifier are parameters; the checks of identifiers and message types between receiving and replying are not modelled.
- Freeing and printing of DHCPv6 packets.
- The ip-change script of a RADIUS change of authorization: it does not wait for the reaper to drop the handler lock.
- ForkLimit.StepSafe: the list of handlers is the set of handlers in the listed state, since its order does not matter without reused pids; signals sent to children and freeing of the session record are not modelled.
- Swapping a log file's descriptor on reopen, and splicing of whole message lists into a log file: they only add cases outside the order property.
- LogWriter.WrittenInOrder: the shared state is a value with one step for each critical section; the iovec array itself is modelled in AddEntry, AddMessage and Drain.
- PppFsm.OpenedMeansAgreed: callbacks are emitted actions; re-entrant calls from layer-down or layer-up handlers into the automaton are not modelled.
- PppLayers.StartedOnceInOrder: covers layer lists with one layer in every node but the last, as lcp and auth give; for other lists AgainExactly says when a node is scheduled a second time.
- PPP packet formats and option values, authentication, MPPE, RADIUS, L2TP, session accounting, Lua and the command line.
- ConnLimit.Limiter.Check: does not model calls that interleave between the search and the insertion, or a clock that goes back.
