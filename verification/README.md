# OSI model simulator in Dafny

This project models a small TypeScript simulator of the seven-layer OSI stack.
`OSIModel.transmit` pushes a text down the stack:
- the presentation layer prefixes an encoding tag and, if a key is set, an encryption tag;
- the transport layer wraps the text in a TCP or UDP segment carrying a port;
- the network layer adds a destination address and a protocol header;
- the data link layer adds MAC addresses and a frame;
- the physical layer may flip one bit.

The resulting bits go to `receive`, which peels the layers off in reverse.
The stack is built on protocol classes that all follow one pattern: they wrap text in `TAG(` … `)`, and they unwrap it either with JavaScript's first-occurrence `replace` or with a regular expression. Other classes are small state machines:
- the TLS, SSL and PPP connections;
- the RIP and OSPF routing tables;
- LACP link groups;
- the HTTP and HTTPS clients;
- the session layers.

The model is functional:
- Every class is an immutable datatype.
- Every method is a function that returns the new state and the method's reply.
- Every `Math.random()` draw is a parameter, with the range the code gives it.

The JavaScript string semantics the code relies on are stated once:
- `Strings`: first-occurrence `replace`, `indexOf` and `includes`, and number printing.
- `Patterns`: the lazy group `(.+?)` and the greedy group `(.+)`, leftmost match first, with `.` not matching line terminators; also the MAC header pattern `SRC=.*?, DEST=.*?, `.
- `Tags`: wrapping and unwrapping.
- `Records`: an insertion-ordered JavaScript object.

The contracts then state what each operation promises:
- round trips, and the exact inputs for which they hold;
- the error replies;
- the invariants each state machine keeps;
- what the whole pipeline delivers.

The pipeline's main result is `OsiModel.Delivery`: it states exactly what the application receives. The original text does not come back. The data link decoder consumes the `)` of the presentation tag `Encoded(UTF-8): `. The presentation decoder then no longer finds its tag. Nothing strips the transport layer's `Port=…, Data=` prefix. So a fresh simulator turns `x` into `Port=0, Data=Encoded(UTF-8: x)`. `OsiModel.NeverShortCircuits` shows that the session guard never fires: the session object is always assigned, whether or not a session was started.

## Model

| member | source | states |
|---|---|---|
| OsiModel.Init | src/osi-model.ts:22-34 | The constructor takes the three protocols and gives every other layer its default: error rate 0, the default MAC addresses, 127.0.0.1, port 0, an inactive session, UTF-8 and no key. |
| OsiModel.SetTransportProtocol | src/osi-model.ts:36-38 | Only the transport protocol changes; the port and every other layer stay as they were. |
| OsiModel.SetDataLinkProtocol | src/osi-model.ts:40-42 | Only the data link protocol changes; the MAC addresses and the other layers are kept. |
| OsiModel.SetNetworkProtocol | src/osi-model.ts:44-46 | Only the network protocol changes; the destination address and the other layers are kept. |
| OsiModel.SetEncryptionKey | src/osi-model.ts:48-50 | Only the presentation key changes; the encoding format and the other layers are kept. |
| OsiModel.StartSession | src/osi-model.ts:52-54 | Afterwards the session is active; no other layer changes. |
| OsiModel.EndSession | src/osi-model.ts:56-58 | Afterwards the session is inactive; no other layer changes. |
| OsiModel.Receive | src/osi-model.ts:109-138 | Receiving reaches the application exactly when the session object is present. |
| OsiModel.Transmit | src/osi-model.ts:76-107 | Transmitting produces bits exactly when the session object is present, and then hands exactly those bits to `receive` once. A refused transmission changes nothing. Only the transport layer changes: UDP not at all, TCP by one sequence number per transmission. The port is kept. |
| OsiModel.UseSsh | src/ports/SSH.ts:43-66 | The SSH call needs no session and leaves every layer but the transport unchanged. The port is kept; UDP is untouched, and TCP advances by one sequence number, because the service shares the simulator's transport layer. |
| OsiModel.UseSshIgnoresLayerPort | src/ports/SSH.ts:19-50 | The SSH segment is sent from port 22 whatever port the transport layer holds; its bits are those of a layer set to port 22. |
| OsiModel.UseSshShiftsTransmit | src/osi-model.ts:63-74 | Over TCP, a `transmit` after an SSH call writes the old counter plus two: the SSH segment used up one sequence number. |
| OsiModel.TransmitBits | src/osi-model.ts:80-103 | The bits are the physical layer's transmission of: the data link encoding of the network routing of the transport segment of the encrypted, encoded data. The session's `sendData` adds nothing. |
| OsiModel.ReceiveIgnoresPhysicalAndSession | src/osi-model.ts:109-138 | `receive` never consults the physical layer or the session's state; any present session object gives the same result. |
| OsiModel.TransmitIgnoresSessionState | src/osi-model.ts:87-94 | Whether a session was started makes no difference to the bits, the delivery or the next state. |
| OsiModel.RunKeepsSessionValid | src/osi-model.ts:52-58 | Every sequence of simulator calls keeps the session layer's flag and id in step. |
| OsiModel.NeverShortCircuits | src/osi-model.ts:87-90 | Starting from the constructor, after any sequence of calls, `transmit` always produces bits and a delivery, and `receive` always delivers. The guard never fires. |
| OsiModel.Delivery | src/osi-model.ts:76-138 | In a plain configuration with no bit flipped, the application receives `Port=p, Data=Encoded(f: x)` for the single-line text `x` without `)`. The link decoder takes the tag's `)`, and the port tag is never stripped. |
| OsiModel.DeliveryLosesData | src/osi-model.ts:106-135 | In those configurations the full transmit/receive round trip never gives back the original text. |
| OsiModel.DefaultDelivery | src/osi-model.ts:22-34 | A freshly constructed simulator with IPv4, IPv6 or ICMP delivers `Port=0, Data=Encoded(UTF-8: x)`, whatever the transport and data link protocols. |
| PhysicalLayer.Init | src/layers/layer1/PhysicalLayer.ts:4-6 | The error rate defaults to 0.0. |
| PhysicalLayer.SetErrorRate | src/layers/layer1/PhysicalLayer.ts:53-58 | The error rate becomes the given value. |
| PhysicalLayer.ErrorIndex | src/layers/layer1/PhysicalLayer.ts:29 | `Math.floor(pick * length)` is a valid index for non-empty bits, and 0 for empty bits. |
| PhysicalLayer.EveryIndexDrawn | src/layers/layer1/PhysicalLayer.ts:29 | Every index of the bits can be drawn. |
| PhysicalLayer.IntroduceError | src/layers/layer1/PhysicalLayer.ts:27-32 | On non-empty bits the length is kept and only the drawn position changes: a `0` becomes `1`, anything else becomes `0`. The empty text becomes `0`. |
| PhysicalLayer.IntroduceErrorTwice | src/layers/layer1/PhysicalLayer.ts:30 | Flipping the same binary digit twice restores the bits. |
| PhysicalLayer.Transmit | src/layers/layer1/PhysicalLayer.ts:12-22 | The bits pass unchanged unless the draw falls below the error rate, in which case one bit is flipped. |
| PhysicalLayer.DefaultTransmitsUnchanged | src/layers/layer1/PhysicalLayer.ts:4-21 | With the default rate, the error branch is never taken. |
| PhysicalLayer.CertainError | src/layers/layer1/PhysicalLayer.ts:15-17 | With a rate of at least 1, the bits always change. |
| PhysicalProtocolBase.GetName | src/layers/layer1/protocols/PhysicalProtocolBase.ts:4-13 | The name is the constructor argument. |
| PhysicalProtocolBase.Transmit | src/layers/layer1/protocols/PhysicalProtocolBase.ts:20-23 | The report is `Transmitted via name: ` followed by the bits. |
| PhysicalProtocolBase.Receive | src/layers/layer1/protocols/PhysicalProtocolBase.ts:30-33 | The report is `Received via name: ` followed by the bits. |
| PhysicalProtocolBase.ReportsInjective | src/layers/layer1/protocols/PhysicalProtocolBase.ts:20-33 | Different bits give different reports. |
| Dsl.SynchronizeConnection | src/layers/layer1/protocols/DSL.ts:31-43 | Synchronisation succeeds exactly when the noise draw (0..49) is below 30. |
| Dsl.TransmitData | src/layers/layer1/protocols/DSL.ts:50-60 | A synchronised line sends `DSL_MODULATED(x)`; otherwise it sends the fixed failure message. |
| Dsl.ReceiveData | src/layers/layer1/protocols/DSL.ts:67-78 | The result is empty exactly when the text holds no `DSL_MODULATED(…)` match; otherwise it is one non-empty line. |
| Dsl.ReceiveTransmit | src/layers/layer1/protocols/DSL.ts:57-77 | What a synchronised line sends is read back, for a non-empty line without `)`. |
| Dsl.ReceiveEmpty | src/layers/layer1/protocols/DSL.ts:69-73 | An empty payload is not matched and reads back as "". |
| Dsl.ReceiveFailure | src/layers/layer1/protocols/DSL.ts:53 | The failure message reads back as "". |
| FiberOptic.TransmitData | src/layers/layer1/protocols/FiberOptic.ts:45-55 | A stable signal sends `FIBER_LIGHT(x)`; otherwise it sends the fixed failure message. |
| FiberOptic.ReceiveData | src/layers/layer1/protocols/FiberOptic.ts:62-73 | The result is empty exactly when there is no `FIBER_LIGHT(…)` match; otherwise it is one non-empty line. |
| FiberOptic.ReceiveTransmit | src/layers/layer1/protocols/FiberOptic.ts:52-72 | What a stable signal sends is read back, for a non-empty line without `)`. |
| FiberOptic.ReceiveEmpty | src/layers/layer1/protocols/FiberOptic.ts:64-68 | An empty payload reads back as "". |
| FiberOptic.ReceiveFailure | src/layers/layer1/protocols/FiberOptic.ts:48 | The failure message reads back as "". |
| Bluetooth.CheckPairingStatus | src/layers/layer1/protocols/Bluetooth.ts:20-41 | Pairing succeeds exactly when devices were found and the pairing draw succeeds. |
| Bluetooth.TransmitData | src/layers/layer1/protocols/Bluetooth.ts:59-73 | A signal weaker than -80 dBm fails with the fixed message. Otherwise the reply is the success message followed by `BLUETOOTH_ENCODED(x)`. |
| Bluetooth.ReceiveEncoded | src/layers/layer1/protocols/Bluetooth.ts:80-85 | `BLUETOOTH_ENCODED(x)` decodes to `x` for `x` without `)`. |
| Bluetooth.ReceiveData | src/layers/layer1/protocols/Bluetooth.ts:80-85 | Decoding removes at most the tag and one `)`, so it never lengthens the data and shortens it by at most the tag plus one. Data holding neither the tag nor `)` comes back unchanged. |
| Bluetooth.ReceiveTransmit | src/layers/layer1/protocols/Bluetooth.ts:72-82 | Decoding a successful transmission keeps the success message: the result is `Data transmitted successfully: x`, not `x`. |
| Bluetooth.OpenerAfterSent | src/layers/layer1/protocols/Bluetooth.ts:72 | The success message holds no `)` and no earlier copy of the encoding tag. |
| Bluetooth.HandleInterference | src/layers/layer1/protocols/Bluetooth.ts:91-99 | The next channel follows the current one, 79 wraps to 1, and it always differs from the current channel. |
| Bluetooth.HopCycle | src/layers/layer1/protocols/Bluetooth.ts:93-94 | Hopping k times moves k channels forward around the 79-channel cycle. |
| Bluetooth.HopReturns | src/layers/layer1/protocols/Bluetooth.ts:93-94 | Seventy-nine hops return to the starting channel. |
| DataLinkProtocolBase.Encode | src/layers/layer2/protocols/DataLinkProtocolBase.ts:14-17 | The frame is the upper-cased name, `_FRAME(`, the bits and `)`. |
| DataLinkProtocolBase.Decode | src/layers/layer2/protocols/DataLinkProtocolBase.ts:19-24 | Decoding only removes text, so it never lengthens the frame. |
| DataLinkProtocolBase.ReplaceFirstShortens | src/layers/layer2/protocols/DataLinkProtocolBase.ts:21-23 | Removing the first occurrence of a pattern never lengthens a text. |
| DataLinkProtocolBase.ValidateFrame | src/layers/layer2/protocols/DataLinkProtocolBase.ts:40-50 | A frame is valid exactly when the tag followed by `_FRAME` occurs somewhere in it. |
| DataLinkProtocolBase.AnalyzeFrame | src/layers/layer2/protocols/DataLinkProtocolBase.ts:57-77 | The reported addresses are the two fixed examples; the data is the decoded frame. |
| DataLinkProtocolBase.DecodeEncode | src/layers/layer2/protocols/DataLinkProtocolBase.ts:14-24 | Decoding undoes encoding for bits without `)`. |
| DataLinkProtocolBase.ValidateEncoded | src/layers/layer2/protocols/DataLinkProtocolBase.ts:16-41 | Every encoded frame is valid. |
| DataLinkProtocolBase.LacpDecodeEncode | src/layers/layer2/protocols/LACP.ts:6-8 | The round trip holds for LACP even though its tag itself contains `)`. |
| DataLinkProtocols.Encode | src/layers/layer2/protocols/Ethernet.ts:8-11 | Each protocol writes its own opener: `ETHERNET_FRAME(`, `WIFI_FRAME(`, `MPLS_LABEL(`, `VLAN_TAG(`, or the named frame. The named frame agrees with the base class. |
| DataLinkProtocols.Decode | src/layers/layer2/protocols/Ethernet.ts:13-16 | For the named-frame protocols, decoding agrees with the base class. |
| DataLinkProtocols.DecodeEncode | src/layers/layer2/protocols/Ethernet.ts:8-16 | Decoding undoes encoding for every protocol, for bits without `)`. |
| DataLinkProtocols.DecodeEncodeParen | src/layers/layer2/protocols/Ethernet.ts:15 | Bits holding a `)` lose their first `)`, and the frame's closing `)` stays at the end. |
| DataLinkProtocols.DecodeUntagged | src/layers/layer2/protocols/Ethernet.ts:15 | A text holding neither the opener nor `)` decodes to itself. |
| DataLinkLayer.Init | src/layers/layer2/DataLinkLayer.ts:8-16 | The MAC addresses default to `00:00:00:00:00:01` (source) and `00:00:00:00:00:02` (destination). |
| DataLinkLayer.SetProtocol | src/layers/layer2/DataLinkLayer.ts:21-24 | Only the protocol changes. |
| DataLinkLayer.SetSourceMAC | src/layers/layer2/DataLinkLayer.ts:50-53 | Only the source address changes. |
| DataLinkLayer.SetDestinationMAC | src/layers/layer2/DataLinkLayer.ts:58-61 | Only the destination address changes. |
| DataLinkLayer.MacHeaderHasNoParen | src/layers/layer2/DataLinkLayer.ts:29-34 | The MAC header holds no `)` when the addresses hold none. |
| DataLinkLayer.Encode | src/layers/layer2/DataLinkLayer.ts:29-34 | The protocol frames `SRC=s, DEST=d, ` followed by the bits. |
| DataLinkLayer.Decode | src/layers/layer2/DataLinkLayer.ts:39-45 | When the decoded frame holds no MAC header match, it passes through unchanged. |
| DataLinkLayer.DecodeEncode | src/layers/layer2/DataLinkLayer.ts:29-45 | Decoding undoes encoding for bits without `)`, when the addresses are single lines without `,` or `)`. |
| DataLinkLayer.DefaultsArePlain | src/layers/layer2/DataLinkLayer.ts:10-11 | The default addresses are read back exactly by the MAC pattern. |
| DataLinkLayer.DefaultDecodeEncode | src/layers/layer2/DataLinkLayer.ts:8-45 | With the default addresses, every protocol's round trip holds for bits without `)`. |
| Lacp.Init | src/layers/layer2/protocols/LACP.ts:4 | There are no groups at first. |
| Lacp.GroupId | src/layers/layer2/protocols/LACP.ts:32 | A group id is `LACP_GROUP_` followed by the decimal digits of the draw. |
| Lacp.GroupIdDistinct | src/layers/layer2/protocols/LACP.ts:32 | Different draws give different ids, and no id equals the failure message. |
| Lacp.AggregateLinks | src/layers/layer2/protocols/LACP.ts:23-43 | Fewer than two links fail with no change. Otherwise exactly the given list is stored under the drawn id, overwriting any group with that id, and the id is returned. |
| Lacp.CheckAggregatedLinkStatus | src/layers/layer2/protocols/LACP.ts:50-67 | An unknown group is never up; a known group is up exactly when the activity draw succeeds. |
| Lacp.StatusAfterEdits | src/layers/layer2/protocols/LACP.ts:23-132 | A group just aggregated reports exactly the activity draw. Adding or removing a link never changes whether a group reports up. |
| Lacp.AddLinkToGroup | src/layers/layer2/protocols/LACP.ts:75-100 | Adding fails with no change exactly when the group is missing or already holds the link. Success appends the link and touches no other group. |
| Lacp.FirstIndex | src/layers/layer2/protocols/LACP.ts:120 | `indexOf` finds the first position of the link, and fails exactly when the link is absent. |
| Lacp.RemoveLinkFromGroup | src/layers/layer2/protocols/LACP.ts:108-132 | Removal fails with no change exactly when the group is missing or lacks the link. Success deletes only the first copy, keeps the rest in order and touches no other group. |
| Lacp.RemoveOneCopy | src/layers/layer2/protocols/LACP.ts:126 | A removal takes out exactly one copy; a group may shrink below two links. |
| Lacp.AddThenRemove | src/layers/layer2/protocols/LACP.ts:94-126 | Removing a link just added restores the groups. |
| Lacp.EditsKeepNoDuplicates | src/layers/layer2/protocols/LACP.ts:87-126 | Adding and removing never introduce a duplicate link. |
| Lacp.AggregateKeepsDuplicates | src/layers/layer2/protocols/LACP.ts:23-33 | Aggregation accepts a list with duplicates. |
| Ppp.Init | src/layers/layer2/protocols/PTPP.ts:7-11 | The link starts down and unauthenticated. |
| Ppp.EstablishConnection | src/layers/layer2/protocols/PTPP.ts:25-50 | The link comes up exactly when both the line draw and the negotiation draw succeed. `authenticated` is never touched. |
| Ppp.AuthenticatedButDown | src/layers/layer2/protocols/PTPP.ts:25-50 | A failed re-establish can leave the link authenticated but down. |
| Ppp.Authenticate | src/layers/layer2/protocols/PTPP.ts:56-77 | Authentication succeeds exactly when the link is up and the draw succeeds. A failed draw also takes the link down. |
| Ppp.TransmitData | src/layers/layer2/protocols/PTPP.ts:84-97 | Sending needs both flags; it replies `Data transmitted: PPP_COMPRESSED(x)`, or `Transmission failed.` |
| Ppp.ReceiveData | src/layers/layer2/protocols/PTPP.ts:104-123 | The reply is "" without both flags or without a match; any other reply is one line. |
| Ppp.ReceiveTransmit | src/layers/layer2/protocols/PTPP.ts:93-122 | What is transmitted is read back, for a non-empty line without `)`. |
| Ppp.ReceiveEmptyPayload | src/layers/layer2/protocols/PTPP.ts:114-117 | An empty payload reads back as "". |
| Ppp.Disconnect | src/layers/layer2/protocols/PTPP.ts:128-133 | Afterwards the link is down and unauthenticated, so no data can flow. |
| NetworkProtocolBase.AddRoutingInfo | src/layers/layer3/protocols/NetworkProtocolBase.ts:18-22 | The packet is `NAME_HEADER(`, then the serialized header, a bar, the data and a closing `)`, in that order and nothing else. |
| NetworkProtocolBase.DropFinalParen | src/layers/layer3/protocols/NetworkProtocolBase.ts:41 | One `)` is removed, and only at the very end of the text. |
| NetworkProtocolBase.RemoveRoutingInfo | src/layers/layer3/protocols/NetworkProtocolBase.ts:29-42 | With no header match, only a final `)` is removed. Removal never lengthens the packet. |
| NetworkProtocolBase.RemoveAdd | src/layers/layer3/protocols/NetworkProtocolBase.ts:18-42 | Removing the routing information gives back any data, even data holding `)` or a bar, when the serialized header is one non-empty line without a bar. |
| NetworkProtocols.AddRoutingInfo | src/layers/layer3/protocols/IPv4.ts:8-11 | IPv4, IPv6 and ICMP write `NAME_HEADER(` + data + `)`; a header-carrying protocol agrees with the base class. |
| NetworkProtocols.RemoveRoutingInfo | src/layers/layer3/protocols/IPv4.ts:13-16 | A header-carrying protocol removes as the base class does. |
| NetworkProtocols.RemoveAdd | src/layers/layer3/protocols/IPv4.ts:8-16 | Removal undoes adding: for the tagged three, for data without `)`; for the header protocols, for a readable header. |
| NetworkProtocols.RemoveAddParen | src/layers/layer3/protocols/IPv4.ts:15 | Data holding a `)` loses its first `)`, and the closing `)` stays at the end. |
| NetworkProtocols.RemoveUntagged | src/layers/layer3/protocols/IPv4.ts:15 | A text with neither the tag nor `)` passes unchanged. |
| NetworkLayer.Init | src/layers/layer3/NetworkLayer.ts:7-10 | The destination defaults to `127.0.0.1`. |
| NetworkLayer.SetProtocol | src/layers/layer3/NetworkLayer.ts:16-18 | Only the protocol changes. |
| NetworkLayer.SetDestinationIP | src/layers/layer3/NetworkLayer.ts:24-27 | Only the address changes. |
| NetworkLayer.GetDestinationIP | src/layers/layer3/NetworkLayer.ts:59-61 | The last address set is returned. |
| NetworkLayer.AddRoutingInfo | src/layers/layer3/NetworkLayer.ts:34-41 | The protocol routes `DestIP=ip, ` followed by the data. |
| NetworkLayer.RemoveRoutingInfo | src/layers/layer3/NetworkLayer.ts:48-53 | The packet goes to the protocol unchanged. |
| NetworkLayer.RemoveAdd | src/layers/layer3/NetworkLayer.ts:34-53 | The round trip keeps the `DestIP=ip, ` prefix: the layer never strips its own tag. |
| Rip.Init | src/layers/layer3/protocols/RIP.ts:7-15 | The table starts empty, and so do the header entries. |
| Rip.AddRoute | src/layers/layer3/protocols/RIP.ts:38-50 | A cost above 15 changes nothing. Otherwise the destination gets exactly this route, whatever it held before. No other destination changes. |
| Rip.ReceiveOne | src/layers/layer3/protocols/RIP.ts:85-97 | One update installs cost+1 via the neighbour only if the destination has no route or the new cost is strictly less. No other destination changes. |
| Rip.ReceiveUpdate | src/layers/layer3/protocols/RIP.ts:78-99 | Receiving updates leaves the header entries alone. |
| Rip.BestOfferIsMinimum | src/layers/layer3/protocols/RIP.ts:84-85 | The best offer for a destination is absent exactly when no update names it. Otherwise it is the least cost+1 among those updates, and the earliest on a tie. |
| Rip.ReceiveAllBest | src/layers/layer3/protocols/RIP.ts:84-97 | After a whole update list, a destination holds what adopting the single best offer would give. |
| Rip.AdoptTwice | src/layers/layer3/protocols/RIP.ts:88-89 | Adopting two offers in turn adopts the cheaper one, the earlier on a tie. |
| Rip.ReceiveNeverWorse | src/layers/layer3/protocols/RIP.ts:88-89 | Updates never remove a destination and never raise its cost. |
| Rip.ReceiveUntouched | src/layers/layer3/protocols/RIP.ts:84-89 | A destination that no update names keeps its route. |
| Rip.ReceiveAppend | src/layers/layer3/protocols/RIP.ts:84 | Updates apply in list order: a later update meets the table the earlier ones left. |
| Rip.ReceiveTieKeeps | src/layers/layer3/protocols/RIP.ts:88 | An offer of equal cost keeps the old route, even from another neighbour. |
| Rip.AddRouteWithinCeiling | src/layers/layer3/protocols/RIP.ts:39-46 | `addRoute` keeps every route within the 15-hop ceiling. |
| Rip.ReceiveBreaksCeiling | src/layers/layer3/protocols/RIP.ts:85-89 | `receiveUpdate` applies no ceiling; an offer of 15 hops installs a 16-hop route. |
| Rip.HandleRouteTimeout | src/layers/layer3/protocols/RIP.ts:105-114 | The destination is gone afterwards; an absent one is a no-op. Other destinations and the header are untouched. |
| Rip.BroadcastUpdate | src/layers/layer3/protocols/RIP.ts:55-71 | The header entries become one (destination, cost+1) per table entry, in table order; the table is kept. |
| Rip.AdvertisedShape | src/layers/layer3/protocols/RIP.ts:57-61 | The advertised list has one entry per table entry, each one hop further away. |
| Rip.ReceiveOwnBroadcast | src/layers/layer3/protocols/RIP.ts:57-89 | Feeding a router its own broadcast changes none of its routes. |
| Ospf.Init | src/layers/layer3/protocols/OSPF.ts:7-15 | The router id is kept and the database starts empty. |
| Ospf.AdvertiseLink | src/layers/layer3/protocols/OSPF.ts:33-43 | The destination gets the given cost; no other entry changes. |
| Ospf.UpdateLinkState | src/layers/layer3/protocols/OSPF.ts:87-104 | Only a stored non-zero cost is replaced. A missing destination, or one stored with cost 0, leaves the database unchanged. The key set is kept. |
| Ospf.ZeroCostIsNotFound | src/layers/layer3/protocols/OSPF.ts:91-92 | A link advertised with cost 0 cannot be updated afterwards. |
| Ospf.WithCost | src/layers/layer3/protocols/OSPF.ts:53-55 | The entries of one cost class all come from the list and all have that cost. |
| Ospf.InsertByCost | src/layers/layer3/protocols/OSPF.ts:53-55 | Insertion adds exactly the one entry. |
| Ospf.InsertSorted | src/layers/layer3/protocols/OSPF.ts:53-55 | Insertion keeps the list ordered by cost. |
| Ospf.InsertLowerBound | src/layers/layer3/protocols/OSPF.ts:53-55 | Insertion keeps a lower bound on the costs. |
| Ospf.WithCostNone | src/layers/layer3/protocols/OSPF.ts:53-55 | A list of dearer entries has an empty class for a cheaper cost. |
| Ospf.InsertStable | src/layers/layer3/protocols/OSPF.ts:53-55 | Insertion keeps every cost class in order and puts the new entry last in its own class. |
| Ospf.WithCostAppend | src/layers/layer3/protocols/OSPF.ts:53-55 | Cost classes distribute over appending. |
| Ospf.SortByCost | src/layers/layer3/protocols/OSPF.ts:53-55 | The sort returns a permutation of its input, ordered by cost. |
| Ospf.SortStable | src/layers/layer3/protocols/OSPF.ts:53-55 | The sort is stable: entries of equal cost keep their order. |
| Ospf.CalculateShortestPath | src/layers/layer3/protocols/OSPF.ts:49-62 | The listed routes are a permutation of the database entries, ordered by cost, with ties in database order. The database is not modified. |
| Tcp.Init | src/layers/layer4/protocols/TCP.ts:4 | The sequence number starts at 0. |
| Tcp.Head | src/layers/layer4/protocols/TCP.ts:13 | The segment head `TCP(Seq=n, ` holds no `)`, and `Data=` first occurs right after it. |
| Tcp.Send | src/layers/layer4/protocols/TCP.ts:10-14 | Each send advances the sequence number by one and writes the new number into `TCP(Seq=n, Data=d)`. |
| Tcp.Receive | src/layers/layer4/protocols/TCP.ts:16-20 | Receiving keeps the sequence number and reads the `Data=` field. |
| Tcp.ReceiveSend | src/layers/layer4/protocols/TCP.ts:10-20 | Receiving a sent segment gives back any non-empty line, even one holding `)` or `Data=`. |
| Tcp.ReceiveSendEmpty | src/layers/layer4/protocols/TCP.ts:17 | An empty payload reads back as `UNKNOWN`. |
| Tcp.SendAllCounts | src/layers/layer4/protocols/TCP.ts:11 | The sequence number counts the sends. |
| DataField.Read | src/layers/layer4/protocols/UDP.ts:14 | Without a `Data=…)` match on one line the result is `UNKNOWN`; with one it is a non-empty line. |
| DataField.ReadWrapped | src/layers/layer4/protocols/UDP.ts:14 | The greedy group reads back the whole payload after the first `Data=`. |
| DataField.ReadEmpty | src/layers/layer4/protocols/UDP.ts:14 | An empty payload is not matched. |
| Udp.TagAfterHead | src/layers/layer4/protocols/UDP.ts:10 | `Data=` first occurs right after `UDP(`. |
| Udp.Send | src/layers/layer4/protocols/UDP.ts:8-11 | The segment is `UDP(Data=d)`. |
| Udp.Receive | src/layers/layer4/protocols/UDP.ts:13-17 | Receiving reads the `Data=` field, as TCP does. |
| Udp.ReceiveSend | src/layers/layer4/protocols/UDP.ts:8-17 | Receiving a sent segment gives back any non-empty line. |
| Udp.ReceiveSendEmpty | src/layers/layer4/protocols/UDP.ts:14 | An empty payload reads back as `UNKNOWN`. |
| TransportLayer.PortOr | src/layers/layer4/TransportLayer.ts:35 | A missing or zero port falls back to the layer's port, as JavaScript's logical or does. |
| TransportLayer.Init | src/layers/layer4/TransportLayer.ts:7-10 | The port defaults to 0. |
| TransportLayer.SetProtocol | src/layers/layer4/TransportLayer.ts:16-18 | Only the protocol changes. |
| TransportLayer.SetPort | src/layers/layer4/TransportLayer.ts:24-26 | Only the port changes. |
| TransportLayer.GetPort | src/layers/layer4/TransportLayer.ts:58-60 | The port is returned. |
| TransportLayer.Payload | src/layers/layer4/TransportLayer.ts:39 | `Port=p, Data=d` is non-empty, and is one line when the data is. |
| TransportLayer.Send | src/layers/layer4/TransportLayer.ts:34-40 | The protocol sends `Port=p, Data=d`, with p the argument if truthy, else the layer's port. UDP keeps no state; TCP advances its counter. The port is kept. |
| TransportLayer.Receive | src/layers/layer4/TransportLayer.ts:47-52 | The segment goes to the protocol unchanged, and the protocol's reading is the result. |
| TransportLayer.ReceiveSend | src/layers/layer4/TransportLayer.ts:34-52 | The round trip gives back `Port=p, Data=x`: the port tag is not stripped. |
| Tls.Init | src/layers/layer4/protocols/TSL.ts:9-15 | A new connection has no session and satisfies the invariant. |
| Tls.SessionName | src/layers/layer4/protocols/TSL.ts:33 | A session id is `TLS_SESSION_` followed by more text, so it is never empty. |
| Tls.EstablishConnection | src/layers/layer4/protocols/TSL.ts:21-39 | A failed handshake changes nothing. Success completes the handshake and sets a fresh id. Authentication is never reset. |
| Tls.TerminateConnection | src/layers/layer4/protocols/TSL.ts:139-152 | Without a session this is a no-op; otherwise every field is cleared. |
| Tls.Authenticate | src/layers/layer4/protocols/TSL.ts:45-67 | Without a handshake, false and no change. A successful draw authenticates; a failed draw terminates the connection. |
| Tls.EncryptData | src/layers/layer4/protocols/TSL.ts:74-86 | "" unless authenticated, `TLS_ENCRYPTED(x)` otherwise. |
| Tls.DecryptData | src/layers/layer4/protocols/TSL.ts:93-105 | "" unless authenticated. |
| Tls.DecryptEncrypt | src/layers/layer4/protocols/TSL.ts:83-102 | When authenticated, decryption undoes encryption for data without `)`. |
| Tls.RenegotiateSession | src/layers/layer4/protocols/TSL.ts:111-134 | Without a session, false and no change. Success replaces the id and keeps authentication; failure terminates. |
| Tls.DetectDowngradeAttack | src/layers/layer4/protocols/TSL.ts:158-168 | A detected attack terminates the connection; otherwise nothing changes. |
| Tls.TerminateIdempotent | src/layers/layer4/protocols/TSL.ts:139-151 | Terminating twice is terminating once, and afterwards there is no session. |
| Tls.StepValid | src/layers/layer4/protocols/TSL.ts:21-168 | Every method keeps the invariant: authenticated implies a completed handshake, and a completed handshake is exactly having a session id. |
| Tls.RunValid | src/layers/layer4/protocols/TSL.ts:21-168 | Every sequence of calls keeps that invariant. |
| Tls.EncryptNeedsSession | src/layers/layer4/protocols/TSL.ts:74-83 | From a new connection, data is encrypted only once there is a session with a completed handshake. |
| Ssl.Init | src/layers/layer4/protocols/SSL.ts:8-13 | A new connection has no session and satisfies the invariant. |
| Ssl.SessionName | src/layers/layer4/protocols/SSL.ts:25 | A session id is `SESSION_` followed by more text, so it is never empty. |
| Ssl.EstablishConnection | src/layers/layer4/protocols/SSL.ts:19-33 | A failure changes nothing; success sets a fresh id and keeps the authentication flag. |
| Ssl.Authenticate | src/layers/layer4/protocols/SSL.ts:39-59 | Without a session, false and no change. Otherwise the flag takes the draw, and a failure also drops the session. |
| Ssl.EncryptData | src/layers/layer4/protocols/SSL.ts:66-78 | "" unless authenticated, `SSL_ENCRYPTED(x)` otherwise. |
| Ssl.DecryptData | src/layers/layer4/protocols/SSL.ts:85-97 | "" unless authenticated. |
| Ssl.DecryptEncrypt | src/layers/layer4/protocols/SSL.ts:75-94 | When authenticated, decryption undoes encryption for data without `)`. |
| Ssl.TerminateConnection | src/layers/layer4/protocols/SSL.ts:102-114 | Without a session this is a no-op; otherwise both fields are cleared. |
| Ssl.TerminateIdempotent | src/layers/layer4/protocols/SSL.ts:102-114 | Terminating twice is terminating once. |
| Ssl.RenegotiateSession | src/layers/layer4/protocols/SSL.ts:120-141 | Without a session, false and no change. Success replaces the id; failure terminates. |
| Ssl.StepValid | src/layers/layer4/protocols/SSL.ts:19-141 | Every method keeps the invariant that an authenticated connection has a session. |
| Ssl.RunValid | src/layers/layer4/protocols/SSL.ts:19-141 | Every sequence of calls keeps that invariant. |
| SessionLayer.Init | src/layers/layer5/SessionLayer.ts:5-8 | A new layer is inactive and satisfies the invariant. |
| SessionLayer.StartSession | src/layers/layer5/SessionLayer.ts:13-22 | An active session keeps its id. Otherwise the session activates with an id starting `SESSION-`. |
| SessionLayer.EndSession | src/layers/layer5/SessionLayer.ts:27-36 | While inactive this is a no-op; otherwise it restores the initial state. |
| SessionLayer.StartThenEnd | src/layers/layer5/SessionLayer.ts:5-36 | Starting and then ending a session restores the initial state. |
| SessionLayer.RunValid | src/layers/layer5/SessionLayer.ts:13-51 | Every sequence of calls keeps the flag and the id together. |
| SessionLayer.SendIsInvisible | src/layers/layer5/SessionLayer.ts:42-51 | Sending data anywhere in a call sequence makes no difference to the final state. |
| NetBios.Init | src/layers/layer5/protocols/NetBios.ts:6-9 | The session starts inactive. |
| NetBios.StartSession | src/layers/layer5/protocols/NetBios.ts:15-25 | A successful draw activates; a failed one leaves the flag as it was. |
| NetBios.EndSession | src/layers/layer5/protocols/NetBios.ts:72-80 | Afterwards the session is inactive. |
| NetBios.ResolveName | src/layers/layer5/protocols/NetBios.ts:58-67 | The address starts `192.168.` and holds only digits and dots. |
| NetBios.DotAfterDigits | src/layers/layer5/protocols/NetBios.ts:60-62 | The first dot after a run of digits ends that run. |
| NetBios.ResolveNameInjective | src/layers/layer5/protocols/NetBios.ts:60-62 | The address determines both octet draws. |
| PresentationLayer.Init | src/layers/layer6/PresentationLayer.ts:5-11 | The format defaults to `UTF-8` and the key to null. |
| PresentationLayer.Encode | src/layers/layer6/PresentationLayer.ts:18-23 | The result is the tag `Encoded(f): ` followed by the data. |
| PresentationLayer.Decode | src/layers/layer6/PresentationLayer.ts:30-35 | A text without the tag decodes to itself. |
| PresentationLayer.DecodeEncode | src/layers/layer6/PresentationLayer.ts:22-34 | Decoding undoes encoding for every text. |
| PresentationLayer.Encrypt | src/layers/layer6/PresentationLayer.ts:42-50 | Without a truthy key, this is the identity. With one, the result is `Encrypted(k): ` followed by the data. |
| PresentationLayer.Decrypt | src/layers/layer6/PresentationLayer.ts:57-65 | Without a truthy key, this is the identity. A text without the tag also decrypts to itself. |
| PresentationLayer.DecryptEncrypt | src/layers/layer6/PresentationLayer.ts:42-65 | Decryption undoes encryption for every key and text. |
| PresentationLayer.PresentationRoundTrip | src/layers/layer6/PresentationLayer.ts:18-65 | Decode-decrypt undoes encrypt-encode for every text. |
| PresentationLayer.SetEncryptionKey | src/layers/layer6/PresentationLayer.ts:71-74 | Only the key changes. |
| PresentationLayer.EmptyKeyIsNoKey | src/layers/layer6/PresentationLayer.ts:43-46 | The empty key switches encryption off, just as null does. |
| Xml.Encode | src/layers/layer6/protocols/XMLProtocol.ts:8-13 | The result is `<data>x</data>`. |
| Xml.Decode | src/layers/layer6/protocols/XMLProtocol.ts:15-25 | Without a match the result is `Invalid XML`; with one it is a non-empty line. |
| Xml.DecodeEncode | src/layers/layer6/protocols/XMLProtocol.ts:10-22 | Decoding undoes encoding for a non-empty line, even one holding `</data>`. |
| Xml.DecodeEncodeEmpty | src/layers/layer6/protocols/XMLProtocol.ts:17-21 | The empty text encodes to something that decodes to `Invalid XML`. |
| Ascii.Validate | src/layers/layer6/protocols/ASCII.ts:39-44 | The text is valid exactly when every code unit is at most 0x7F; the empty text is valid. |
| Ascii.Trim | src/layers/layer6/protocols/ASCII.ts:89 | The result is valid and no longer than the input. It holds exactly the ASCII characters that the input holds. |
| Ascii.TrimAppend | src/layers/layer6/protocols/ASCII.ts:89 | Trimming works character by character, so the kept characters keep their order. |
| Ascii.TrimCounts | src/layers/layer6/protocols/ASCII.ts:89 | Every ASCII code unit is kept as often as it occurs. |
| Ascii.TrimValid | src/layers/layer6/protocols/ASCII.ts:41-89 | Trimming valid text changes nothing. |
| Ascii.TrimIdempotent | src/layers/layer6/protocols/ASCII.ts:89 | Trimming twice is trimming once. |
| Http.Init | src/layers/layer7/protocols/HTTP.ts:7-11 | A new client is disconnected and has no headers. |
| Http.Handle | src/layers/layer7/protocols/HTTP.ts:69-162 | Each of the six requests gives its fixed `Failed to …` reply when disconnected, and its response text when connected. |
| Http.RefusedExactlyWhenDisconnected | src/layers/layer7/protocols/HTTP.ts:69-162 | A reply starts with `Failed to ` exactly when the client is disconnected. |
| Http.SetupConnection | src/layers/layer7/protocols/HTTP.ts:18-28 | A successful draw connects; a failed one leaves the flag as it was. The headers are kept. |
| Http.TeardownConnection | src/layers/layer7/protocols/HTTP.ts:35-44 | A connected client is disconnected, with the closing message. Otherwise the reply is `No connection to close.` and nothing changes. |
| Http.SetHeader | src/layers/layer7/protocols/HTTP.ts:51-54 | The key maps to the value; every other header and the connection are kept. |
| Http.StepFrame | src/layers/layer7/protocols/HTTP.ts:18-162 | Only setup and teardown change the connection. Only `setHeader` changes the headers. |
| Https.Init | src/layers/layer7/protocols/HTTPS.ts:8-13 | A new client is disconnected and has no headers. |
| Https.EncryptData | src/layers/layer7/protocols/HTTPS.ts:123-126 | The result is `ENCRYPTED(`, the data and `)`. Decrypting it gives the data back when the data holds no `)`. |
| Https.DecryptData | src/layers/layer7/protocols/HTTPS.ts:133-136 | Decrypting removes at most the tag and one `)`, never lengthens the data, and leaves data holding neither unchanged. |
| Https.Handle | src/layers/layer7/protocols/HTTPS.ts:79-210 | Each of the six requests gives its fixed `Failed to …` reply when disconnected, and its response text when connected. |
| Https.SendDataShape | src/layers/layer7/protocols/HTTPS.ts:79-91 | A sent request is `HTTPS_REQUEST_SENT(ENCRYPTED(d))`. |
| Https.ReceiveEncrypted | src/layers/layer7/protocols/HTTPS.ts:98-109 | Receiving `ENCRYPTED(x)` gives `x` for `x` without `)`. |
| Https.SentPrefixHasNoParen | src/layers/layer7/protocols/HTTPS.ts:90 | The request prefix holds no `)`. |
| Https.OpenerAfterSentPrefix | src/layers/layer7/protocols/HTTPS.ts:90 | `ENCRYPTED(` first occurs right after the request prefix. |
| Https.ReceiveSent | src/layers/layer7/protocols/HTTPS.ts:87-135 | Receiving a sent request gives `HTTPS_REQUEST_SENT(x)`, not `x`. |
| Https.SetupConnection | src/layers/layer7/protocols/HTTPS.ts:20-32 | A successful draw connects; a failed one leaves the flag as it was. |
| Https.TeardownConnection | src/layers/layer7/protocols/HTTPS.ts:39-48 | A connected client is disconnected, with the secure closing message. Otherwise the reply is `No secure connection to close.` and nothing changes. |
| Https.SetHeader | src/layers/layer7/protocols/HTTPS.ts:55-58 | The key maps to the value; every other header and the connection are kept. |
| Https.GetHeader | src/layers/layer7/protocols/HTTPS.ts:65-71 | A stored non-empty value is returned. A missing or empty one gives `Header not set.` |
| Https.GetSetHeader | src/layers/layer7/protocols/HTTPS.ts:55-71 | A non-empty header set is read back, and other headers read as before. |
| Https.EmptyHeaderUnset | src/layers/layer7/protocols/HTTPS.ts:70 | An empty header cannot be told from a missing one. |
| Https.RefusalsAreFailures | src/layers/layer7/protocols/HTTPS.ts:79-205 | Every refusal starts with `Failed to `. |
| Https.StepFrame | src/layers/layer7/protocols/HTTPS.ts:20-210 | Only setup and teardown change the connection. Only `setHeader` changes the headers. |

## Left out

- Logging is left out: `console.log`, `this.log`, `logHeaders`, `printRoutingTable` and the `describeProtocol` texts produce output only.
- `Math.random()` is not modelled. Each draw is a parameter: a success flag, a bounded integer, or a real in [0,1) for the physical layer's roll and index pick.
- These draw-only or log-only methods hold no state, so they are not modelled: `OSPF.sendHelloPacket`, `FiberOptic.checkLightSignal` and `repairFiberStrand`, `DSL.measureLineNoise` and `detectAndHandleErrors`, `Bluetooth.measureSignalStrength`, `DataLinkProtocolBase.handleCollision`, and NetBIOS `sendData`/`receiveData`. Their draws appear as parameters of the operations that consume them.
- Floating-point methods are left out: `PhysicalLayer.calculateTransmissionTime`, `FiberOptic.measureSignalAttenuation`, and the image compression percentages. The error rate is a real; the comparison with the roll is exact.
- The Base64, JSON, Unicode, EBCDIC, PNG, GIF and JPEG protocols are not part of this model. Neither are ASCII `encode`, `decode`, `convertEncoding` and `extractMetadata`. They wrap Node's `Buffer`, `JSON` and `normalize`, whose behaviour is not visible here.
- `JSON.stringify` of a network protocol's header is taken as an opaque string. Upper-casing a data link protocol's name is taken as a given tag string.
- `src/main.ts` is not part of this model: it only builds one simulator and sequences calls. The SSH service's `describeService` text is only logged, and the bits of `executeTask` are logged and then dropped. What `useSSH` does to the simulator's own layers is `OsiModel.UseSsh`.
- The application layer is not a module of its own: `sendData` returns its argument and `receiveData` only logs, so both appear inline in `OsiModel.Transmit` and `OsiModel.Receive`.
- The abstract bases and interfaces are not modelled as such. The protocol variants are closed datatypes instead.
- Strings are sequences of UTF-16 code units, but Dafny characters cannot hold lone surrogates.
- Keys inherited from a JavaScript object's prototype are not modelled; every key is an own key. `Object.entries` lists integer-like keys first; the model keeps plain insertion order.
- Numbers are unbounded integers. NaN, fractions, exponent printing and 2^53 precision are not modelled.
- `SessionLayer.StartSession`: the random base-36 id suffix is a parameter, so the id only has the `SESSION-` prefix in common with the source.
- `OsiModel.Delivery`: proved only for plain configurations, namely:
  - a session object exists;
  - there is no truthy key;
  - the network protocol is IPv4, IPv6 or ICMP;
  - the encoding format is a single line;
  - the format and addresses hold no `)` (and the address no `D`);
  - the MAC addresses are single lines without `,` or `)`;
  - no bit is flipped.

  Other configurations are covered only by the layer-level round trips.
- `OsiModel.DeliveryLosesData` and `OsiModel.DefaultDelivery`: as for `OsiModel.Delivery`, limited to those configurations.
- `DataLinkLayer.DecodeEncode`: proved only for addresses that are single lines without `,` or `)`. Other addresses can make the lazy MAC pattern stop early.
- `NetworkProtocolBase.RemoveAdd`: proved only for a serialized header that is one non-empty line without `|`.
- `Lacp.AggregateLinks`, `Lacp.AddLinkToGroup` and `Lacp.RemoveLinkFromGroup`: the groups are values. The source stores the caller's array itself (src/layers/layer2/protocols/LACP.ts:33) and edits it in place (lines 94 and 126), so two groups aggregated from one array, or the caller's own array, change together; that sharing is not modelled, and "touches no other group" holds only for groups that share no array.
- `NetworkProtocolBase.RemoveRoutingInfo` and `NetworkProtocolBase.RemoveAdd`: the protocol name is matched as literal text. The source splices the name into a regular expression unescaped (src/layers/layer3/protocols/NetworkProtocolBase.ts:32 and 40), so a name holding pattern characters such as `+`, `.` or `(` matches differently there. The names used, `RIP` and `OSPF`, are plain letters, for which the two agree.
- `Bluetooth.ReceiveTransmit`: proved only for data without `)`; data with one loses its first `)`, as the frame round trips do.
