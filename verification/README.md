# Verified models of babeld and bgpd

This project models the routing logic of the Quagga distribution in this
repository in Dafny 4.11 and proves properties of it for all inputs and all runs.
`dafny verify dfyconfig.toml` checks everything.

- **Babel route selection** (`Seqno`, `Selection`, `SelectionProps`, `Availability`,
  `Network`, `LoopFreedom`, `RetractedLoop`, `Hysteresis`). `Selection` holds the decisions of
  route.c and source.c as functions on one slot of routes. `Network` runs any
  number of daemons on them over a network that loses, duplicates and reorders
  messages. The main theorem is loop freedom per source.
- **The route table of one daemon** (`TableView`, `RouteTable`). A class with the
  slot array, the sources, the kernel table and the exported routes. Its methods
  are the operations of route.c, source.c and xroute.c; each is proved to keep one
  invariant and to change the table as `Selection` says.
- **The Babel update codec** (`BabelPrefix`, `BabelParser`, `BabelSender`,
  `BabelCodec`, `BabelListener`, `BabelCompression`). The stateful encoder over a fixed buffer and the
  stateful parser, joined by a simulation relation; and the parser against any other
  sender.
- **BGP multipath lists** (`Multipath`, `MultipathProps`). The walk over live doubly linked lists.
- **AS paths and communities** (`SortedSet`, `Decimal`, `AsPath`, `AsPathWire`,
  `As4`, `AsPathText`, `Community`). Normal form, wire format, transition to
  32-bit AS numbers, text.
- **The BGP session state machine** (`Fsm`, `FsmProps`, `FsmDuties`, `FsmEarly`,
  `FsmPeer`).
  The transition table, its handlers, timers, event queue and the background
  queue that removes a peer's routes.

Code that changes state is a class or a method with loops, proved against
specification functions; what the system promises is proved of those functions.

## What the proofs assume

- Loop freedom is per source and asks, of that source only: in every state its
  sequence numbers lie in one half of the 16-bit circle; it is not stale where a
  decision is taken; and no step installs a mere retraction of it, that is a route
  with an infinite reference metric, not from the origin, through a neighbour with
  no finite feasible route of the source. Section 3.6 of RFC 6126 forbids to install
  retractions; `consider_route` tests for infinity only when a route is installed
  already. `RetractedLoop` gives a run that loops without this last assumption, and
  shows that it is exactly what a single install needs.
- It also takes link costs to be at least 1 in their low 16 bits, which is all that
  routes keep. The route table is modelled for every cost.
- A node forwards along an installed route with a finite metric; with an infinite
  one the kernel is given a blackhole.
- Kernel calls and allocations succeed. Filters permit, diversity is off; the
  metrics that filters and links add are parameters.
- Addresses and prefixes of the route table are big-endian numbers, so that memory
  comparison is numeric order. The codec works on bytes.
- `update_route` retains the new and releases the old source of a route at the end
  of the update; the source does so in the middle, with the same result.
- The interface buffer is at most 65535 bytes (an MTU of at most 65599), so that its
  length fits the header.
- The session model leaves graceful restart unnegotiated. A peer's routes are
  counted per table, in the order in which they are cleared, and apart from them
  those at nodes that the background queue was not given. The queue runs dry in one
  step, which removes just the routes at the nodes it was given.

## Where code and comments differ

The model follows the code.

- route.c says that an unfeasible update for an installed route is ignored; it is
  applied when the source stays the same (route.c:720-742).
- `find_best_route` takes the first route of a slot without testing it; see
  `SelectionProps.BestIsEligibleIff`.
- `change_route_metric` tells the kernel the metric of the full link cost but keeps 16
  bits of the cost (route.c:468-494); see `RouteTable.MutedIsExact`.
- `kernel_route` does nothing when it is asked to modify a route into itself, so a
  switch between routes that look alike does not repair a wrong metric
  (kernel.c:130-134); see `RouteTable.SwitchInKernel`.
- `aspath_put` writes the first 255 ASNs again for every further chunk, and counts a
  chunk for all ASNs so far; it asks for room for one header only, and a full stream
  drops what does not fit without `aspath_put` noticing; see `AsPathWire.RoundTripIff`
  and `AsPathWire.CountIsRightIff`.
- The update parser decides which remembered prefix it needs by comparing the flags
  byte with 1, and lets a message stick out of the body by two bytes
  (message.c:240-244, message.c:357-358); see `BabelListener.StepListens`.
- `community_str2com` adds the last value again at the end of the text.
- bgp_route.c says that clearing completes at once only if there was nothing to
  clear; it does so for each empty table before the first one with routes, see
  `FsmProps.EarlyCompletionIff`. It also says that every non-empty node is queued;
  only nodes with a route of the peer are.

## Model

| member | source | states |
|---|---|---|
| `Seqno.CompareInWindow` | Distributedquagga-0.99.21/babeld/util.h:69-76 | On any window of sequence numbers narrower than 2^15 the circular comparison is the integer order of the offsets, hence a strict total order. |
| `Seqno.CompareAntisymmetricIff` | Distributedquagga-0.99.21/babeld/util.h:69-76 | Antisymmetry holds if and only if the two numbers are not exactly half the circle apart. |
| `SelectionProps.ConsiderDecides` | Distributedquagga-0.99.21/babeld/route.c:821-860 | `consider_route` keeps the slot valid, permutes its routes without altering what they claim, installs only a feasible route or keeps the old one, and does nothing when the prefix is exported. |
| `SelectionProps.ChangedDecides` | Distributedquagga-0.99.21/babeld/route.c:943-965 | The same for `route_changed`, whatever the old metric was. |
| `SelectionProps.LostDecides` | Distributedquagga-0.99.21/babeld/route.c:967-983 | The same for `route_lost`. |
| `SelectionProps.DecisionsCompose` | Distributedquagga-0.99.21/babeld/route.c:720-752 | Two such decisions one after the other are again one, so an update may trigger several. |
| `SelectionProps.FlushedKeeps` | Distributedquagga-0.99.21/babeld/route.c:211-260 | Flushing a route removes exactly that route from the slot, whatever replacement is installed, and keeps the slot valid. |
| `SelectionProps.UpdateExistingReplaces` | Distributedquagga-0.99.21/babeld/route.c:709-760 | An update to a known route replaces just that route and may install only what is feasible, or what already was installed from the same source, although an unfeasible update is applied. |
| `SelectionProps.InsertNewKeeps` | Distributedquagga-0.99.21/babeld/route.c:761-797 | An accepted new route is added once, at a unique (neighbour, next hop), and installed only if feasible. |
| `SelectionProps.RefreshMetricReplaces` | Distributedquagga-0.99.21/babeld/route.c:609-634 | A metric refresh changes one route and decides as above. |
| `SelectionProps.RetractAtReplaces` | Distributedquagga-0.99.21/babeld/route.c:496-500 | A retraction changes one route and decides as above. |
| `SelectionProps.BestIsFresh` | Distributedquagga-0.99.21/babeld/route.c:585-607 | Past the head, `find_best_route` takes only a route heard of within its hold time, feasible if asked, and not from the excluded neighbour. |
| `SelectionProps.BestIsEligibleIff` | Distributedquagga-0.99.21/babeld/route.c:585-607 | `find_best_route` is never worse than any eligible route; it is itself eligible if and only if the head is or an eligible route is strictly better than the head, since the head is taken unseen. |
| `Availability.ConsiderServes` | Distributedquagga-0.99.21/babeld/route.c:821-860 | Considering never makes the installed route worse; after a feasible route was considered and nothing is exported, something is installed, and if the route considered is finite then the installed one is finite too, less than 64 above it. |
| `Availability.LostServesIff` | Distributedquagga-0.99.21/babeld/route.c:967-983 | With nothing installed and nothing exported, `route_lost` installs a route if and only if the head is feasible or a usable route is strictly better than the head; no usable route is then better than the one installed. |
| `Availability.FlushServesIff` | Distributedquagga-0.99.21/babeld/route.c:211-260 | The same of what is left after the installed route is flushed. |
| `Availability.ChangedFailsOverIff` | Distributedquagga-0.99.21/babeld/route.c:943-965 | `route_changed` leaves the installed route, and then for the best usable one, if and only if it has got worse, nothing is exported and a usable route is at least 96 better; else the slot stays as it is. |
| `Availability.ChangedServes` | Distributedquagga-0.99.21/babeld/route.c:943-965 | After `route_changed` on a feasible route something is installed, less than 64 above it. |
| `Availability.RetractFailsOver` | Distributedquagga-0.99.21/babeld/route.c:496-505 | Retracting the installed route fails over in that way. |
| `Availability.RefreshFailsOver` | Distributedquagga-0.99.21/babeld/route.c:609-634 | So does the expiry of the installed route, and a link cost that raises its metric. |
| `Availability.RefreshServes` | Distributedquagga-0.99.21/babeld/route.c:609-634 | A refresh that changes the metric of a feasible route leaves something installed, less than 64 above it. |
| `Availability.UpdateFailsOver` | Distributedquagga-0.99.21/babeld/route.c:720-752 | So does an update that raises the metric of the installed route, a retraction included. |
| `Availability.UpdateLosesIff` | Distributedquagga-0.99.21/babeld/route.c:720-760 | An unfeasible update that moves the installed route to another source uninstalls it; a replacement is installed if and only if there is one. |
| `Availability.RefreshedIs` | Distributedquagga-0.99.21/babeld/route.c:609-634 | A route heard of within its hold time takes the new link cost and keeps the rest; any other is retracted, with a sequence number one above that of its source. |
| `Availability.HoldTimeIs` | Distributedquagga-0.99.21/babeld/route.c:682-682 | A route is held for six announcement intervals, in whole seconds, at least 15. |
| `Availability.UpdateIsRecorded` | Distributedquagga-0.99.21/babeld/route.c:709-797 | After an update of a known route, or one that is finite and feasible (or unfeasible routes are kept), the slot holds a route with exactly the source, next hop, metrics, seqno and hold time announced. Only the second kind renews the route; an update that is neither changes nothing. |
| `Availability.UpdateServes` | Distributedquagga-0.99.21/babeld/route.c:670-797 | After a feasible update with a finite reference metric for a prefix that is not exported, a route is installed, less than 64 above the one announced. |
| `Network.FeasibleIff` | Distributedquagga-0.99.21/babeld/route.c:565-582 | The feasibility condition in integers: inside a window of sequence numbers, an update is feasible if and only if it is a retraction, the source has been idle for more than 200 seconds, or its (seqno, metric) is lexicographically better. |
| `Network.IdleSourceIsForgotten` | Distributedquagga-0.99.21/babeld/source.c:128-146 | After that time a source constrains nothing and takes over whatever is advertised. |
| `Network.UpdateSourceImproves` | Distributedquagga-0.99.21/babeld/source.c:128-146 | Advertising never makes a feasibility distance worse and leaves it at least as good as what was advertised. |
| `Network.DistanceNeverWorse` | Distributedquagga-0.99.21/babeld/source.c:128-146 | Over any run of advertisements on a source that does not go stale the pair (seqno, metric) never gets worse and stays at least as good as everything ever advertised. |
| `Network.AdvertisedIsUnfeasibleIff` | Distributedquagga-0.99.21/babeld/route.c:565-582 | After (s, m) is advertised no (s, m2) with finite m2 >= m is feasible, if and only if the source was not exactly half the seqno circle away. |
| `LoopFreedom.StepKeepsInv` | Distributedquagga-0.99.21/babeld/route.c:565-582 | Source by source: every step of the network (originate, advertise, deliver, lose, duplicate, reorder, flush, refresh, retract, export) that does not install a mere retraction of the source keeps: what a route of it claims is backed by the neighbour, and the installed successor is the origin or strictly closer than the node itself. |
| `LoopFreedom.RunKeepsInv` | Distributedquagga-0.99.21/babeld/route.c:709-752 | That invariant in every state of every such run; other sources may have any sequence numbers, go stale or loop. |
| `LoopFreedom.PathGetsCloser` | Distributedquagga-0.99.21/babeld/route.c:821-860 | Along installed next hops of one source the feasibility distance gets strictly better. |
| `LoopFreedom.LoopFree` | Distributedquagga-0.99.21/babeld/message.c:1011-1054 | Loop freedom: in no state of any such run do installed next hops of the source form a cycle, under loss, duplication and reordering without bound. |
| `RetractedLoop.InstallSafeIff` | Distributedquagga-0.99.21/babeld/route.c:821-860 | When `consider_route` installs a feasible route, its neighbour is the origin or strictly closer in every network the node cannot tell from its own, if and only if the route has a finite metric, comes from the origin, or another route through that neighbour makes a finite feasible claim; the code asks for none of these when nothing is installed. |
| `RetractedLoop.LoopAfterRetractedInstall` | Distributedquagga-0.99.21/babeld/route.c:839-843 | A run of fourteen steps, orderly in every other respect, in which a retracted route is installed and two nodes end up forwarding to each other. |
| `Hysteresis.SwitchSpends` | Distributedquagga-0.99.21/babeld/route.c:839-860 | A switch leaves nothing, leaves infinity, or lowers the installed metric by at least 64. |
| `Hysteresis.AtMost1025Switches` | Distributedquagga-0.99.21/babeld/route.h:73-78 | With metrics fixed, any series of `consider_route` calls performs at most 1025 installs and switches. |
| `RouteTable.StaysSnug` | Distributedquagga-0.99.21/babeld/route.c:189-246 | Growing and shrinking leave an array room for its elements and, beyond eight places, not more than about four times as much; none for no elements. |
| `RouteTable.Table.constructor` | Distributedquagga-0.99.21/babeld/route.c:56-66 | An empty table meets the invariant: strictly sorted slots, one key per slot, unique (neighbour, next hop), installed route only at the head, kernel agreement, reference counts, exclusion. |
| `RouteTable.Table.FindRouteSlot` | Distributedquagga-0.99.21/babeld/route.c:85-116 | Binary search finds the slot of a key if and only if there is one, else the place where it belongs. |
| `RouteTable.Table.FindRoute` | Distributedquagga-0.99.21/babeld/route.c:118-137 | The position of the route with the given neighbour and next hop, or the end of the slot. |
| `RouteTable.Table.InsertRoute` | Distributedquagga-0.99.21/babeld/route.c:178-209 | Appends to the slot of the key or inserts a slot at its place; slots stay strictly sorted and the kernel agrees. |
| `RouteTable.Table.InstallRoute` | Distributedquagga-0.99.21/babeld/route.c:377-411 | Moves the route to the head and installs it, with its next hop, interface and metric in the kernel, unless a route is installed already; the destinations the kernel is wrong about stay the same. |
| `RouteTable.Table.UninstallRoute` | Distributedquagga-0.99.21/babeld/route.c:413-433 | Clears the flag and the kernel entry together. |
| `RouteTable.Table.SwitchRoutes` | Distributedquagga-0.99.21/babeld/route.c:435-466 | The new route leads the slot and is the only installed one. The kernel is wrong about the destination afterwards if and only if it was before and both routes have the same next hop, interface and kernel metric; all other destinations are as they were. |
| `RouteTable.SwitchInKernel` | Distributedquagga-0.99.21/babeld/kernel.c:130-134 | A modification that asks for what is believed to be there does nothing, so that exactly then a muted destination stays muted; any other one sets the kernel right. |
| `RouteTable.Table.ChangeRouteMetric` | Distributedquagga-0.99.21/babeld/route.c:468-494 | For every cost: the kernel is told about the full cost and the route keeps 16 bits of it. The invariant is kept, and the kernel metric of the destination is wrong afterwards if and only if the route is installed, its 16-bit metric is finite, and the full one is not or the kernel was wrong before. |
| `RouteTable.MutedIsExact` | Distributedquagga-0.99.21/babeld/route.c:468-494 | Under the invariant, which every operation keeps, the kernel has a route for exactly the destinations with an installed one, with its next hop, interface and metric, except for exactly the muted destinations, whose finite route the kernel takes for a blackhole. |
| `RouteTable.Table.FindBestRoute` | Distributedquagga-0.99.21/babeld/route.c:585-607 | The loop computes the choice that BestIsEligibleIff describes. |
| `RouteTable.Table.ConsiderRoute` | Distributedquagga-0.99.21/babeld/route.c:821-860 | The table after `consider_route` is the decision of ConsiderDecides in that slot and nothing else, and the invariant holds. |
| `RouteTable.Table.RouteChanged` | Distributedquagga-0.99.21/babeld/route.c:943-965 | Likewise for ChangedDecides. |
| `RouteTable.Table.RouteLost` | Distributedquagga-0.99.21/babeld/route.c:967-983 | The table after `route_lost` is the decision of LostDecides in that slot and nothing else; with nothing exported a route is installed if and only if the slot has a replacement. |
| `RouteTable.Table.FlushRoute` | Distributedquagga-0.99.21/babeld/route.c:211-260 | Removes exactly one route, drops an empty slot from the array, releases the source, and keeps every part of the invariant. If the route was installed and its prefix is not exported, the kernel has a route to it afterwards if and only if what is left has a replacement. |
| `RouteTable.Table.FlushNeighbourRoutes` | Distributedquagga-0.99.21/babeld/route.c:282-302 | Terminates and leaves exactly the routes not through that neighbour, as a multiset, although each flush may shift the array, reorder the slot and install a replacement. |
| `RouteTable.Table.UpdateRoute` | Distributedquagga-0.99.21/babeld/route.c:670-797 | For every update and every link cost: the slot of the prefix becomes what the selection functions say, no other slot changes, own and filtered updates change nothing, and reference counts, kernel agreement and exclusion are kept. A cost of 16 bits never mutes a destination, and a larger one at most this one. After a feasible update with a finite reference metric the kernel has a route to the prefix, unless that is exported. |
| `RouteTable.Table.UpdateRouteMetric` | Distributedquagga-0.99.21/babeld/route.c:609-634 | Likewise for a metric refresh or an expiry, for every link cost. |
| `RouteTable.Table.FindSource` | Distributedquagga-0.99.21/babeld/source.c:53-91 | Finds or creates the source; the invariant is kept. |
| `RouteTable.Table.AdvertiseRoute` | Distributedquagga-0.99.21/babeld/message.c:1011-1054 | Advertising an installed route lowers only that source's feasibility distance. |
| `RouteTable.Table.ExpireSources` | Distributedquagga-0.99.21/babeld/source.c:148-166 | Exactly the stale sources without routes go, so no route ever loses its source. |
| `RouteTable.Table.FindXroute` | Distributedquagga-0.99.21/babeld/xroute.c:122-132 | The first exported route with that key, or the end. |
| `RouteTable.Table.AddXroute` | Distributedquagga-0.99.21/babeld/xroute.c:162-193 | Adds, improves or refuses; keys stay unique and the array within its capacity. |
| `RouteTable.Table.ExportRoute` | Distributedquagga-0.99.21/babeld/xroute.c:212-237 | The prefix is exported at no worse a metric and, when duplicates are not allowed, no longer installed; no other slot changes. |
| `RouteTable.Table.FlushXroute` | Distributedquagga-0.99.21/babeld/xroute.c:134-160 | Swap-delete removes exactly one element as a multiset and keeps keys unique and exclusion. |
| `RouteTable.SwapRemovedIsRemoval` | Distributedquagga-0.99.21/babeld/xroute.c:134-160 | The array after swap-delete is the old one less the removed element. |
| `BabelPrefix.MaskInto` | Distributedquagga-0.99.21/babeld/util.c:223-238 | Clearing, copying and masking one byte computes the bitwise mask. |
| `BabelPrefix.MaskKeepsBits` | Distributedquagga-0.99.21/babeld/util.c:223-238 | `mask_prefix`, bit by bit: the first plen bits of the address are kept, all others are zero. |
| `BabelPrefix.CanonicalV6IsNotMapped` | Distributedquagga-0.99.21/babeld/util.c:385-389 | A canonical prefix that is sent as IPv6 is never IPv4-mapped, so the parser accepts it as a base for omitted bytes. |
| `BabelPrefix.Restored6` | Distributedquagga-0.99.21/babeld/message.c:73-131 | `network_prefix` gives a canonical IPv6 prefix back from its omitted and its given bytes. |
| `BabelPrefix.Restored4` | Distributedquagga-0.99.21/babeld/message.c:73-131 | The same for IPv4. |
| `BabelParser.ParsePacket` | Distributedquagga-0.99.21/babeld/message.c:189-492 | `parse_packet` hands on exactly what the message-by-message meaning says, or nothing is claimed when memory is read that the packet does not determine. |
| `BabelListener.StepListens` | Distributedquagga-0.99.21/babeld/message.c:310-446 | Every Router-Id, every Next Hop of all four encodings, every update of all four encodings with any flags, omitted bytes and sub-messages, and every garbled one of these, is read as it is meant, and leaves the parser knowing just what is in force. The only exception: omitted bytes are looked for under the wrong flag, so that an IPv4 update that omits bytes is passed over unless an IPv6 prefix is remembered. |
| `BabelListener.ListenerHears` | Distributedquagga-0.99.21/babeld/message.c:189-492 | Hence any packet of any such messages of any sender is heard exactly as meant: router-id, prefix, length, seqno, metric, interval, and the next hop announced for the family, or the sender if none was. |
| `BabelListener.ForeignPacket` | Distributedquagga-0.99.21/babeld/message.c:208-224 | A packet from an address outside fe80::/64, or of another protocol or version, is heard as nothing. |
| `BabelListener.BodyEnds` | Distributedquagga-0.99.21/babeld/message.c:232-238 | Messages are read up to the length in the header, whatever follows, or up to the end of a packet that is shorter. |
| `BabelListener.StepUndefinedIff` | Distributedquagga-0.99.21/babeld/message.c:348-383 | What is heard depends on memory that was never written if and only if a readable update of AE 1 or 2 omits bytes, its own family never had a prefix, and the family that the flags byte makes the code look at has one. |
| `BabelListener.PaddedAndCutOff` | Distributedquagga-0.99.21/babeld/message.c:226-245 | Padding anywhere between messages changes nothing; a last message that claims to reach three or more bytes beyond the end is dropped, alone. |
| `BabelSender.GroupFits` | Distributedquagga-0.99.21/babeld/message.c:838-905 | Next Hop, Router-Id and Update of one update take at most 48 of the 60 bytes ensured, so a group is never split. |
| `BabelSender.Interface.constructor` | Distributedquagga-0.99.21/babeld/babel_interface.c:525-541 | With the minimum MTU enforced, the buffer holds at least 60 bytes and both ends start in step. |
| `BabelSender.Interface.FlushBuf` | Distributedquagga-0.99.21/babeld/message.c:532-571 | Everything buffered goes out as one packet with the right length, and all remembered values are forgotten. |
| `BabelSender.Interface.EnsureSpace` | Distributedquagga-0.99.21/babeld/message.c:609-616 | Flushes if and only if the space is missing; then the buffer is empty, else nothing has changed. |
| `BabelSender.Interface.StartMessage` | Distributedquagga-0.99.21/babeld/message.c:618-627 | Flushes only when there is no room, and then only between whole groups. |
| `BabelSender.Interface.ReallySendUpdate` | Distributedquagga-0.99.21/babeld/message.c:812-908 | Buffer, remembered values and packets sent are those of the group encoder, with the omitted bytes counted by the loop. |
| `BabelSender.Interface.SendWildcardRetraction` | Distributedquagga-0.99.21/babeld/message.c:1178-1205 | Likewise; the remembered router-id is forgotten. |
| `BabelCodec.FoldGroup` | Distributedquagga-0.99.21/babeld/message.c:844-907 | From any state in which the parser knows what the sender relies on, the messages of one update are heard as exactly that update and leave both ends in step again. |
| `BabelCodec.FlushSimulates` | Distributedquagga-0.99.21/babeld/message.c:532-571 | Cutting a packet anywhere between groups loses nothing, although both ends forget. |
| `BabelCodec.DoSimulates` | Distributedquagga-0.99.21/babeld/message.c:310-446 | Every operation keeps the simulation relation between sender and parser. |
| `BabelCodec.CodecRoundTrip` | Distributedquagga-0.99.21/babeld/message.c:310-446 | For every series of IPv4 and IPv6 updates, wildcard retractions, other messages, flushes and address changes, the parser hears exactly the same (router-id, prefix, length, seqno, metric, interval, next hop) sequence. |
| `BabelCodec.Converse` | Distributedquagga-0.99.21/babeld/message.c:812-908 | The same of the bytes that the interface object puts on the wire. |
| `BabelCompression.Layouts` | Distributedquagga-0.99.21/babeld/message.c:844-883 | The messages are laid out as RFC 6126 has them, reserved bytes zero. |
| `BabelCompression.OmitsMost` | Distributedquagga-0.99.21/babeld/message.c:860-864 | No more leading bytes could be left to the memory of the receiver. |
| `BabelCompression.SiblingsAreShort` | Distributedquagga-0.99.21/babeld/message.c:860-908 | An IPv6 update pays only for the bytes in which it differs from the update before it or, if that one was shorter than 48 bits, from the prefix remembered before. |
| `BabelCompression.GroupIsTerse` | Distributedquagga-0.99.21/babeld/message.c:844-883 | A next hop goes out only with an IPv4 update and when it is news; a router-id only when it is news and the prefix is not a host address that ends in it. |
| `Multipath.Dequeue` | Distributedquagga-0.99.21/bgpd/bgp_mpath.c:290-303 | Unlinks one element of a live doubly linked list and leaves the rest linked in order. |
| `Multipath.Enqueue` | Distributedquagga-0.99.21/bgpd/bgp_mpath.c:266-283 | Links an element after another one. |
| `Multipath.GreedyIsProper` | Distributedquagga-0.99.21/bgpd/bgp_mpath.c:395-552 | The greedy choice takes candidates in order, skips the best path, never repeats a next hop in a row and stays within maxpaths. |
| `Multipath.GreedyMissesNone` | Distributedquagga-0.99.21/bgpd/bgp_mpath.c:467-534 | And it takes every path it can: each candidate left out either comes when maxpaths is reached or has the next hop of the last one taken before it. |
| `Multipath.Round` | Distributedquagga-0.99.21/bgpd/bgp_mpath.c:430-534 | One iteration keeps both lists linked, disjoint and flagged, keeps the greedy choice reachable, and makes progress. |
| `Multipath.MpathUpdate` | Distributedquagga-0.99.21/bgpd/bgp_mpath.c:395-552 | Whatever the old list was, the new list is the greedy choice over the candidates, which misses no usable path; everyone else is unlinked and unflagged; the count is its length; the change flag is raised exactly when the list differs. |
| `Multipath.MpathClear` | Distributedquagga-0.99.21/bgpd/bgp_mpath.c:395-552 | Without a new best path every path leaves its list. |
| `MultipathProps.CmpTransitive` | Distributedquagga-0.99.21/bgpd/bgp_mpath.c:103-140 | Among paths with the same kind of multiprotocol next hop the comparison is a total preorder. |
| `MultipathProps.CmpZeroIff` | Distributedquagga-0.99.21/bgpd/bgp_mpath.c:103-184 | Such paths compare as equal if and only if all the addresses of that kind agree, and for the path comparison also the peers. |
| `MultipathProps.CmpNotTransitive` | Distributedquagga-0.99.21/bgpd/bgp_mpath.c:103-140 | Three paths of mixed kinds for which equality is not transitive. |
| `MultipathProps.ChosenDiffer` | Distributedquagga-0.99.21/bgpd/bgp_mpath.c:395-552 | From sorted candidates of one kind no two chosen paths share a next hop. |
| `MultipathProps.BestRepeatsIff` | Distributedquagga-0.99.21/bgpd/bgp_mpath.c:395-552 | The choice repeats the next hop of the best path itself if and only if a path with a lower next hop is chosen first, the limit allows one more, and another path has that next hop. |
| `SortedSet.CanonicalByMembers` | Distributedquagga-0.99.21/bgpd/bgp_aspath.c:241-300 | Sorted, duplicate-free listings are equal if and only if the members are. |
| `AsPath.WeedDupes` | Distributedquagga-0.99.21/bgpd/bgp_aspath.c:281-297 | The in-place duplicate weeding leaves the members, strictly ascending. |
| `AsPath.Normalise` | Distributedquagga-0.99.21/bgpd/bgp_aspath.c:251-320 | `assegment_normalise`, with its in-place loops, computes the normal form. |
| `AsPath.NormalIsIdempotent` | Distributedquagga-0.99.21/bgpd/bgp_aspath.c:251-320 | The result has no adjacent AS_SEQUENCEs and canonical sets; normalising is the identity if and only if the path is like that. |
| `AsPath.NormalDenotes` | Distributedquagga-0.99.21/bgpd/bgp_aspath.c:251-320 | Normalising preserves what a path denotes. |
| `AsPath.NormalFormIsCanonical` | Distributedquagga-0.99.21/bgpd/bgp_aspath.c:251-320 | Without empty AS_SEQUENCEs, two segment lists denote the same path if and only if their normal forms are equal. |
| `AsPath.EmptySequenceIsNotCanonical` | Distributedquagga-0.99.21/bgpd/bgp_aspath.c:251-320 | With an empty AS_SEQUENCE they need not be. |
| `AsPath.Compare` | Distributedquagga-0.99.21/bgpd/bgp_aspath.c:1821-1844 | `aspath_cmp` is equality of segment lists. |
| `AsPathWire.PutData` | Distributedquagga-0.99.21/lib/stream.c:499-541 | On a stream that is nearly full the loop over AS numbers leaves exactly those that fit, each as a whole: one that does not fit is dropped. |
| `AsPathWire.WritePath` | Distributedquagga-0.99.21/bgpd/bgp_aspath.c:844-916 | The loops of `aspath_put`, with chunking, packing, the overwritten length byte, the room check and the writes that a full stream drops, leave the specified bytes and return the specified count. |
| `AsPathWire.PackedOn` | Distributedquagga-0.99.21/bgpd/bgp_aspath.c:889-907 | Segments are packed into an AS_SEQUENCE just as long as AS_SEQUENCEs follow that each have room behind the first one alone, up to 255 ASNs. |
| `AsPathWire.GroupFits` | Distributedquagga-0.99.21/bgpd/bgp_aspath.c:854-911 | If all that one round sets out to write fits the room, nothing of it is dropped. |
| `AsPathWire.ReadPath` | Distributedquagga-0.99.21/bgpd/bgp_aspath.c:676-771 | The loop of `assegments_parse` accepts, rejects and normalises as specified. |
| `AsPathWire.CountIsRightIff` | Distributedquagga-0.99.21/bgpd/bgp_aspath.c:844-916 | For every path and every room: `aspath_put` never writes past the room; the count it returns is never less than the bytes it writes, and equal to them if and only if all it sets out to write fits the room and no segment written has more than 510 ASNs of its own. |
| `AsPathWire.ShortRoomMiscounts` | Distributedquagga-0.99.21/bgpd/bgp_aspath.c:864-864 | One AS_SEQUENCE of 256 ASNs passes the room check with 1026 bytes, of which 1024 are written and 1028 reported. |
| `AsPathWire.ParseOfPut` | Distributedquagga-0.99.21/bgpd/bgp_aspath.c:844-916 | What is written parses back to the normal form of what a speaker of that width sees. |
| `AsPathWire.RoundTripIff` | Distributedquagga-0.99.21/bgpd/bgp_aspath.c:872-878 | A normalised path of non-empty segments survives the wire, with the right count, if and only if its AS_SEQUENCEs have at most 510 ASNs and its other segments at most 255. |
| `As4.TallyHops` | Distributedquagga-0.99.21/bgpd/bgp_aspath.c:431-448 | The hop counter. |
| `As4.TallyConfeds` | Distributedquagga-0.99.21/bgpd/bgp_aspath.c:413-429 | The confederation counter. |
| `As4.CountsWeigh` | Distributedquagga-0.99.21/bgpd/bgp_aspath.c:413-448 | Both counters together weigh the hops a path denotes. |
| `As4.CountsOutside` | Distributedquagga-0.99.21/bgpd/bgp_aspath.c:431-448 | The hop counter counts the hops a path denotes outside confederations. |
| `As4.ReconcileAs4` | Distributedquagga-0.99.21/bgpd/bgp_aspath.c:1438-1530 | The loop of `aspath_reconcile_as4`, with its fall-through and its assertion, computes the specified path. |
| `As4.ReconcileDenotes` | Distributedquagga-0.99.21/bgpd/bgp_aspath.c:1438-1530 | For all inputs the result is a run of leading AS_PATH hops followed by the AS4_PATH. The run is the shortest that makes up the difference between the weight of the AS_PATH, confederations included, and the hops of the AS4_PATH outside confederations, never splitting a confederation sequence; if the AS4_PATH has more hops, it is as long as the AS_PATH outside confederations. The result is normal if the AS4_PATH is. |
| `As4.ReconcileKeepsHops` | Distributedquagga-0.99.21/bgpd/bgp_aspath.c:1448-1467 | Without confederations the hop count of the AS_PATH is kept if and only if the AS4_PATH has no more hops. |
| `As4.AddSeqDenotes` | Distributedquagga-0.99.21/bgpd/bgp_aspath.c:1354-1396 | Prepending adds exactly one hop in front and keeps the normal form. |
| `As4.NarrowedShape` | Distributedquagga-0.99.21/bgpd/bgp_aspath.c:815-831 | What a 16-bit speaker makes of a path has the same segments, types and AS_SEQUENCE lengths, although AS_TRANS may shrink sets. |
| `As4.RelayedPath` | Distributedquagga-0.99.21/bgpd/bgp_attr.c:2102-2121 | Any chain of 16-bit speakers, each parsing, prepending and writing, hands on that path with its ASNs prepended. |
| `As4.As4Outcome` | Distributedquagga-0.99.21/bgpd/bgp_attr.c:1258-1356 | Exactly what a 32-bit speaker gets for a confederation-free path behind any chain of 16-bit speakers: nothing if the leading AS_SEQUENCE outgrows 510 ASNs; the 16-bit view if the path has a wide ASN and an AGGREGATOR other than AS 23456 comes next to an AS4_AGGREGATOR; else the original path. The speakers are prepended, and the aggregator is the AS4 one unless it is overridden so. |
| `As4.As4Transition` | Distributedquagga-0.99.21/bgpd/bgp_attr.c:2426-2449 | With the aggregator attributes as sent, path and aggregator come back exactly, the speakers prepended, if and only if the leading AS_SEQUENCE and the speakers make at most 510 ASNs. |
| `AsPathText.MakeStr` | Distributedquagga-0.99.21/bgpd/bgp_aspath.c:506-606 | The printed text is complete for every path and always ends before the end of the buffer, which the source asserts. |
| `AsPathText.NextToken` | Distributedquagga-0.99.21/bgpd/bgp_aspath.c:1674-1738 | The loops of the tokenizer, with 32-bit wrap-around. |
| `AsPathText.Str2Aspath` | Distributedquagga-0.99.21/bgpd/bgp_aspath.c:1740-1804 | The token loop builds the specified path or refuses. |
| `AsPathText.TextRoundTrip` | Distributedquagga-0.99.21/bgpd/bgp_aspath.c:506-606 | Reading a printed path drops empty AS_SEQUENCEs and joins adjacent ones, so it returns the path if and only if there are none. |
| `Community.UniqSort` | Distributedquagga-0.99.21/bgpd/bgp_community.c:160-184 | The strictly ascending listing of the same values. |
| `Community.Match` | Distributedquagga-0.99.21/bgpd/bgp_community.c:409-437 | The one-pass match is true if and only if the second list is found in order in the first; on strictly ascending lists, if and only if it is a subset. |
| `Community.SubsequenceIffSubset` | Distributedquagga-0.99.21/bgpd/bgp_community.c:423-431 | In-order containment of strictly ascending lists is inclusion. |
| `Community.Com2Str` | Distributedquagga-0.99.21/bgpd/bgp_community.c:195-293 | The text and its final zero fit the memory reserved. |
| `Community.NextToken` | Distributedquagga-0.99.21/bgpd/bgp_community.c:491-576 | The tokenizer with its keyword tests and its digit loop, with 32-bit wrap-around. |
| `Community.Str2Com` | Distributedquagga-0.99.21/bgpd/bgp_community.c:578-617 | The do-while loop, which adds the last value again at the end of the text. |
| `Community.TextRoundTrip` | Distributedquagga-0.99.21/bgpd/bgp_community.c:481-617 | A printed list is read back sorted and without duplicates, the value added twice being absorbed; it comes back as it was if and only if it is non-empty and strictly ascending. |
| `Decimal.ReadPrint` | Distributedquagga-0.99.21/bgpd/bgp_aspath.c:1717-1733 | Digits read with 32-bit wrap-around give the printed number back. |
| `FsmPeer.Peer.constructor` | Distributedquagga-0.99.21/bgpd/bgpd.c:780-830 | A new peer is idle, with no timers, events or routes. |
| `FsmPeer.Peer.TimerSet` | Distributedquagga-0.99.21/bgpd/bgp_fsm.c:77-214 | Whatever was armed before, afterwards start, connect, hold and keepalive timer are armed exactly where and when they are due, and no timer where it is not allowed. |
| `FsmPeer.Peer.ClearAll` | Distributedquagga-0.99.21/bgpd/bgp_route.c:2944-2953 | The loop over the tables leaves the queues that `FsmProps.EarlyCompletionIff` describes. |
| `FsmPeer.Peer.SetStatus` | Distributedquagga-0.99.21/bgpd/bgp_fsm.c:398-421 | Entering Clearing or Deleted loses no route and touches no counter; with nothing being cleared, exactly the tables with routes are queued, and completion is announced at once if and only if the first table has none. |
| `FsmPeer.Peer.BgpStop` | Distributedquagga-0.99.21/bgpd/bgp_fsm.c:433-577 | A session that is up, and no other, is taken off the balance of the counters; no timer stays armed and, outside Clearing, no event pending. |
| `FsmPeer.Peer.BgpStart` | Distributedquagga-0.99.21/bgpd/bgp_fsm.c:640-718 | Whatever dialling brings, counters, timers and routes stay, and no completion is announced. |
| `FsmPeer.Peer.BgpEstablish` | Distributedquagga-0.99.21/bgpd/bgp_fsm.c:768-879 | The session that comes up is the one counted, so the balance of the counters is kept; from OpenConfirm all armed timers stay allowed. |
| `FsmPeer.Peer.PeerDelete` | Distributedquagga-0.99.21/bgpd/bgpd.c:1180-1227 | Deleting a peer in any state ends in Deleted with the counters balanced as before and nothing armed that is not allowed. |
| `FsmPeer.Peer.BgpEvent` | Distributedquagga-0.99.21/bgpd/bgp_fsm.c:1074-1111 | Every event in every state keeps the invariant of the peer object: timers only where they belong, something to wait for in Clearing, and established minus dropped exceeding the session that is up by the completions handled in Established so far. |
| `FsmPeer.Live` | Distributedquagga-0.99.21/bgpd/bgp_fsm.c:1074-1111 | A peer object that goes through any series of steps follows the state machine, has only allowed timers, keeps advertising while it is up, never waits in Clearing for nothing, and meets the exact counter law; after a careful series it has no routes outside a session, and after one that negotiates in time an agreed hold time is watched over. |
| `FsmProps.TableFacts` | Distributedquagga-0.99.21/bgpd/bgp_fsm.c:909-1056 | Which transitions enter or leave Established, Clearing and Deleted, and which handlers they run. |
| `FsmProps.RunKeepsTimers` | Distributedquagga-0.99.21/bgpd/bgp_fsm.c:77-214 | In every reachable state the start, connect, hold, keepalive and advertisement timers are armed only in the states that allow them. |
| `FsmProps.DeletedForever` | Distributedquagga-0.99.21/bgpd/bgp_fsm.c:1037-1052 | Deleted is absorbing: no step leaves it, counts or arms anything. |
| `FsmProps.EventExcess` | Distributedquagga-0.99.21/bgpd/bgp_fsm.c:1002-1018 | Any event in any state changes established minus dropped just as it changes whether the session is up, except Clearing_Completed in Established, which goes uncounted. |
| `FsmProps.CountersExact` | Distributedquagga-0.99.21/bgpd/bgp_fsm.c:768-879 | For every run: established minus dropped is 1 in Established and 0 elsewhere, plus the number of Clearing_Completed events handled in Established; hence balanced if and only if there was none. |
| `FsmProps.SeparationKeptIff` | Distributedquagga-0.99.21/bgpd/bgp_fsm.c:1020-1035 | A step keeps routes inside sessions if and only if it does not handle Clearing_Completed while routes are left. |
| `FsmProps.SeparateIffNeverEarly` | Distributedquagga-0.99.21/bgpd/bgp_fsm.c:1020-1035 | For every run: in every state outside Established, Clearing and Deleted all routes of the peer are gone, if and only if no step of it does that. |
| `FsmProps.EarlyCompletionIff` | Distributedquagga-0.99.21/bgpd/bgp_route.c:2868-2953 | Clearing announces completion while routes are still queued if and only if the first table has no routes of the peer and another one has. |
| `FsmProps.NeverStuck` | Distributedquagga-0.99.21/bgpd/bgp_route.c:2868-2953 | For every run: a peer in Clearing has routes queued for removal or a Clearing_Completed pending. |
| `FsmProps.ClearingEnds` | Distributedquagga-0.99.21/bgpd/bgp_fsm.c:1020-1035 | Hence from every such state at most two steps, the queue running dry and the completion being handled, lead to Idle. |
| `FsmProps.StepKeepsInv` | Distributedquagga-0.99.21/bgpd/bgp_fsm.c:398-577 | A step that clears no single table in a session, and ends a session only while its first table has routes or none has, keeps: completion is pending only in Clearing or Deleted with no routes queued or left. |
| `FsmProps.SessionsAreSeparate` | Distributedquagga-0.99.21/bgpd/bgp_fsm.c:768-879 | A run of such steps completes no clearing early or late: all routes are gone before a new session can come up, the counters balance, and Clearing_Completed is pending only in Clearing or Deleted. |
| `FsmProps.PromptIff` | Distributedquagga-0.99.21/bgpd/bgp_route.c:2944-2953 | When a session ends, no continuation up to the next session leaves routes behind, if and only if its first table has routes or none has. |
| `FsmProps.ClearTableIsLate` | Distributedquagga-0.99.21/bgpd/bgp_route.c:2868-2942 | Clearing a single table during a session always opens a run in which its completion is handled in Established. |
| `FsmDuties.TableByTarget` | Distributedquagga-0.99.21/bgpd/bgp_fsm.c:909-1056 | Which events lead from where to each status. |
| `FsmDuties.TableByHandler` | Distributedquagga-0.99.21/bgpd/bgp_fsm.c:909-1056 | In which status and on which event each handler runs. |
| `FsmDuties.EventArms` | Distributedquagga-0.99.21/bgpd/bgp_fsm.c:77-214 | An event that runs to its end leaves every timer armed exactly if it is due in the new status. |
| `FsmDuties.ProceedsIff` | Distributedquagga-0.99.21/bgpd/bgp_fsm.c:1074-1111 | Which events do not run to their end: a start that is suppressed or cannot get a socket, a success without a connection, and the end of a peer made for an accepted connection. |
| `FsmDuties.RunAttends` | Distributedquagga-0.99.21/bgpd/bgp_fsm.c:146-201 | In every state of every run that negotiates the hold time before OpenConfirm: with a hold time the hold and keepalive timers are armed in OpenConfirm and Established, and the connect timer in Connect. |
| `FsmDuties.SilenceEnds` | Distributedquagga-0.99.21/bgpd/bgp_fsm.c:744-766 | Hence the session of a silent peer ends in one step. |
| `FsmDuties.KeepsAlive` | Distributedquagga-0.99.21/bgpd/bgp_fsm.c:180-201 | And a session that is up can always send its next keepalive, stays up, and is still watched. |
| `FsmDuties.RunAdvertises` | Distributedquagga-0.99.21/bgpd/bgp_fsm.c:296-316 | In every state of every run, a session that is up has its route advertisement timer armed. |
| `FsmDuties.OpenIsAnswered` | Distributedquagga-0.99.21/bgpd/bgp_fsm.c:165-177 | The hold and keepalive times agreed on before the OPEN is handled are those in force in OpenConfirm, and both timers run exactly if the hold time is not zero. |
| `FsmDuties.ComesUp` | Distributedquagga-0.99.21/bgpd/bgp_fsm.c:909-1056 | From every status before Established, Active included, and whatever is pending, a session comes up if the connection is made and the peer answers. |
| `FsmDuties.EventValues` | Distributedquagga-0.99.21/bgpd/bgp_fsm.c:433-594 | Exactly how each event changes the start delay, the negotiated times, the connection, the keepalive counter and the last status. |
| `FsmDuties.DelayIsBounded` | Distributedquagga-0.99.21/bgpd/bgp_fsm.c:578-594 | In every run the start delay stays between 5 and 120 seconds. |
| `FsmEarly.EarlyCompletionRun` | Distributedquagga-0.99.21/bgpd/bgp_route.c:2868-2953 | A run with one IPv6 route in which a new session comes up while routes of the last one remain, and the late completion then ends it without a drop being counted. |

## Left out

- Loops through several sources of one prefix: RFC 6126 allows them to form for a while.
- Source garbage collection and restarts during a run of the network model, for the source that loop freedom is claimed of.
- `retract_neighbour_routes`: it advances its index twice per round and so skips slots.
- Resend queues, request forwarding, neighbour link quality, timers and jitter of babeld.
- Allow-duplicates thresholds of zero and more: exporting compares with `<` and selecting with `>=`, so exclusion is claimed only for the default below zero.
- The order of the source list: sources are a map, and only finding, counting and expiry are modelled.
- Array capacity of routes and exported routes beyond the growth and shrink rule; memory failure.
- RouteTable.Table.ChangeRouteMetric: takes the link cost as a parameter instead of computing it from neighbour statistics.
- Diversity channels in updates, and packets that the rate limiter drops: a dropped packet is a lost one.
- BabelSender.Interface.constructor: MTUs above 65599 are left out; a full buffer would then not fit a UDP packet.
- Unicast buffers: updates are only sent to the group.
- BabelParser.ParsePacket: claims nothing about packets whose reading runs past their end or uses a prefix that was never set.
- BabelSender.Interface.FlushBuf: pending updates are sent before it, as operations of their own, not from inside it.
- The attribute fold of multipath routes and `aspath_aggregate`: a stale match count makes them keep AS membership only in special cases.
- Multipath.MpathUpdate: the record that holds list links is part of the path itself, and the count is unbounded.
- `aspath_prepend` with confederation segments: it reads a segment it has freed.
- Interning and hashing of attributes, reference counts of AS paths.
- As4.As4Outcome: speakers prepend their AS and do nothing else to the path, and each has room for what it writes.
- Extended communities: their match compares at byte offsets, not at entries.
- Flap dampening: floating-point decay.
- Graceful restart: stale routes are kept on purpose and its timers are separate.
- Sessions handed over from an accepted connection to a configured peer, and route-server clients.
- Sockets, threads, logging, configuration and the command line; the firmware and OpenWRT directories.
