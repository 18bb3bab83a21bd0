# A verified model of the host middleware

This project models the core of a publish/subscribe middleware for a few hosts that are linked by
TCP and by a UWB radio, and proves properties of the model with Dafny 4.11. Check everything with
`dafny verify dfyconfig.toml`.

Each host runs a master. The master keeps a registry of the local nodes with their publishers and
subscribers, passes messages between them through bounded queues in shared memory, mirrors the
registries of the other hosts, and routes requests through the mesh of hosts. A DGPS client on one
of the hosts reads a correction stream over NTRIP.

| files | subject |
|---|---|
| `Graphs`, `ShortestPaths`, `HostMap`, `InterfaceManager`, `Forwarding`, `MeshNetwork`, `Failover`, `FailoverLoop`, `FailoverConfig` | the host matrix, the 32-bit route search, the wiring of interfaces, and forwarding through all hosts |
| `UwbFrameCodec`, `UwbHttpText`, `UwbLink`, `UwbHandle`, `UwbRetry`, `UwbNetwork`, `UwbTimeSlots` | frames, escaped HTTP text, the serial line, the acknowledged link, and the time slots of the UWB radio |
| `TcpPeer` | the connection to one neighbour, its queue and its failure counter |
| `PubSubChannel`, `PubSubDelivery` | the two queues from a publisher to a subscriber, and what reaches whom |
| `Registry`, `RegistryHistory`, `Mirror`, `PeerTables` | local nodes, their replicas on the other hosts, and which host subscribes to a topic |
| `ChunkedDecoder`, `Base64` | the chunked decoder and the credentials of the NTRIP client |
| `Basics` | machine integers, optional values and the spelling of numbers |

Objects that the program updates are classes. Their methods are proved equal to functions on
values, and the properties of whole runs are proved about those functions.

## What was found

These are properties that one might expect and that the code does not have, with the lemmas that
show it and, where there is one, the exact condition under which the code has them.

- The route search adds weights in 32 bits (`Map.cpp:99`), and a failed link weighs `INT_MAX - 1`.
  The addition is signed, so its overflow is undefined in C++; the model lets it wrap around in two's
  complement. The vectors are right if and only if no performed addition overflows
  (`ShortestPaths.RunEnd`), and otherwise some host is routed over the very link that overflowed.
  With other weights that fit 32 bits together, the search is safe exactly when every failed link has its
  nearer end at most one away or out of reach, and only links of weight 1 lead on from a host that is
  reached over a failed link (`Failover.SafeIffFailuresNear`, `Failover.SmallWeightsFit`).
- So forwarding loops. Requests arrive and pass no host twice when the search is safe at every host
  (`MeshNetworks.NetworkDelivers`), which can be told from the failures
  (`FailoverLoops.NetworkSafeIff`). In a line of four hosts with a slower direct link between its ends,
  the failure of the last link makes every request of the first host for the last one go to and fro
  between the first two for ever, although the direct link works (`FailoverLoops.LineLoops`). In a
  triangle whose host b has lost both links, requests for b go to and fro between the other two unless
  their link weighs 1 (`FailoverLoops.CutOffArrivesIff`); the configuration delivered with the master has
  weight 3 there (`FailoverConfigs.DeliveredLoops`).
- An override in the configuration that names an unknown host is charged to whichever host reads it,
  so hosts may read different graphs. Among three or more hosts they agree if and only if for every
  ordered pair of hosts the last override that names the second of them and an unknown host, where no
  later one names both, carries the weight that the pair has from its other overrides and segments;
  two hosts agree if and only if the weights they take for their one link agree
  (`HostMaps.AgreementIff`). A single misspelt name among three or more hosts is harmless only if its
  weight is that of every link of the host it is paired with (`HostMaps.UnknownNameBreaksAgreement`,
  `HostMaps.MisspeltOverride`).
- A UWB acknowledgement is matched by its sequence number alone. With at most 255 sends a success
  reported to the caller means delivery; with 256 it may not (`UwbNetworks.StaleAcknowledgement`),
  and a callback may be dropped without being run (`UwbNetworks.DroppedCallback`).
- The duplicate filter remembers one number for each sender. A further copy of a data frame is dropped
  if and only if the last data frame or heartbeat of its sender that the node has looked up since then
  carries its number, or there has been none (`UwbNetworks.CopyDroppedIff`). One heartbeat or one other
  data frame in between makes the node accept the same frame twice (`UwbNetworks.OneInBetween`).
- The deletion of an unregistered node leaves a null pointer under its name for ever
  (`Registries.NullIffUnknownDelete`, `Registries.NullIsStuck`).
- The deletion of a node on a peer removes the peer from the topics of all its nodes
  (`Mirrors.DeleteCompleteIff`). A host is named for a topic if and only if one of its messages told of a
  subscriber and none since then was a deletion or a /new message without the topic
  (`Mirrors.NamedIff`), so subscribers are missed (`Mirrors.IncompleteReached`).
- The chunked decoder loops for ever if and only if its input reaches a chunk extension in the place of
  a size line, with at least one byte after the semicolon (`ChunkedDecoder.HangsIff`).
- The chunk size is computed as `chunksize*16+i-'a'+10` (`ntripclient.cpp:1588-1590`), whose first sum
  already contains the character code. So the largest sizes that fit an `int` overflow: those above
  `INT_MAX - 48` always, and none up to `INT_MAX - 87` (`ChunkedDecoder.SizeRead`,
  `ChunkedDecoder.SizeBounds`).
- The monitor of the time slots remembers the last slot only. A slot gets two callbacks if and only if
  it is an own slot and the clock enters it inside its window twice (`UwbTimeSlots.TwiceIff`); a clock that does not go back never does that
  (`UwbTimeSlots.AtMostOncePerSlot`).
- The credentials lose their colon when the password is empty and the length of the user name is a
  multiple of three (`Base64.CredentialsInvert`).

One suspicion did not come true: although the unsigned slot number jumps at the epoch of the time
slots, the slots on both sides belong to the same node, so the exclusion of the nodes also holds
there (`UwbTimeSlots.EpochEdge`).

## Model

| member | source | states |
|---|---|---|
| HostMaps.HostMap.Init | src/Master/src/interface/Map.cpp:7-75 | the matrix of a host is exactly the graph that the configuration describes for it, and every row knows its interface on each of its segments |
| HostMaps.HostMap.NumberHosts | src/Master/src/interface/Map.cpp:10-45 | the local host gets row 0 and the others follow in the order of the configuration; segment and interface indexes list exactly the configured interfaces |
| HostMaps.InterfaceOnIs | src/Master/src/interface/Map.cpp:10-45 | of several interfaces of a host on one segment the index keeps the last one listed |
| HostMaps.HostMap.LinkSegment | src/Master/src/interface/Map.cpp:50-61 | the pairs of rows on a segment, in both directions and no others, become links of weight 1 on that segment |
| HostMaps.HostMap.ApplyOverrides | src/Master/src/interface/Map.cpp:62-73 | the last override of a pair decides its weight and its initial weight, in both directions; other cells keep theirs |
| HostMaps.ConfigWeightsAgree | src/Master/src/interface/Map.cpp:7-75 | overrides that all name configured hosts are enough for all hosts to read the same graph, and it is symmetric; the exact condition is in the next row |
| HostMaps.AgreementIff | src/Master/src/interface/Map.cpp:62-73 | all configured hosts read the same graph if and only if no pair of hosts is disturbed by the overrides that name one of them and an unknown host, for any number of hosts and overrides |
| HostMaps.UnknownNameBreaksAgreement | src/Master/src/interface/Map.cpp:67-68 | with three or more hosts, one override with an unknown name leaves all hosts agreeing if and only if its weight is that of every link of the host it names |
| HostMaps.MisspeltOverride | src/Master/src/interface/Map.cpp:67-68 | three hosts that disagree because of one misspelt name |
| HostMaps.HostMap.GetRoute | src/Master/src/interface/Map.cpp:76-122 | without overflow there is an entry for exactly the other hosts within a least weight below INT_MAX, and it leaves over the first hop of a least-weight path; with overflow some host is routed through an overflowed link |
| HostMaps.HostMap.Search32 | src/Master/src/interface/Map.cpp:78-104 | the search terminates, and its vectors are those of a run of settling steps, each on a nearest open row |
| HostMaps.HostMap.PickNearest | src/Master/src/interface/Map.cpp:86-93 | the scan finds an open row of least distance below INT_MAX, the first of several, or reports that there is none |
| HostMaps.HostMap.Settle | src/Master/src/interface/Map.cpp:97-103 | one settling step relaxes exactly the open neighbours that the 32-bit sum improves |
| HostMaps.HostMap.WalkBack | src/Master/src/interface/Map.cpp:107-115 | the walk over the parents ends, and the entry is the link from row 0 on which the tree leaves |
| ShortestPaths.RunEnd | src/Master/src/interface/Map.cpp:85-104 | at the end of the search the distances are least weights and exactly the rows within reach are settled, if and only if no performed addition overflows; then the parents form a tree of decreasing distances |
| ShortestPaths.SettleSound | src/Master/src/interface/Map.cpp:97-103 | a step keeps the loop invariant of the route search when no addition overflows |
| ShortestPaths.PickIsLeast | src/Master/src/interface/Map.cpp:88-93 | the distance of the row that is settled next is the least weight of any path to it |
| ShortestPaths.FirstHopIsLeast | src/Master/src/interface/Map.cpp:107-115 | the first row on the tree path to a row is the first hop of a least-weight path |
| ShortestPaths.CapturedHop | src/Master/src/interface/Map.cpp:99-115 | after an overflow the far end of the link hangs below its near end, and its route is a route to the near end |
| HostMaps.HostMap.SetMaxWeight | src/Master/src/interface/Map.cpp:123-128 | both directions of the link weigh INT_MAX - 1, all other weights and all initial weights stay; an unknown name stands for row 0 |
| HostMaps.HostMap.SetInitWeight | src/Master/src/interface/Map.cpp:129-134 | both directions of the link get their configured weights back, all other weights stay |
| InterfaceManagers.InterfaceManager.constructor | src/Master/src/InterfaceManager.cpp:36-99 | after init the interfaces are wired as configured, the graph is the configured one, and the table is one that getRoute can return for it |
| InterfaceManagers.InterfaceManager.ReadLocal | src/Master/src/InterfaceManager.cpp:37-66 | the local interfaces are read with their segments |
| InterfaceManagers.InterfaceManager.ReadRemotes | src/Master/src/InterfaceManager.cpp:67-97 | each interface of another host becomes reachable from exactly the local interfaces on its segment |
| InterfaceManagers.HopWired | src/Master/src/InterfaceManager.cpp:67-97 | on a segment shared with another host the local interface reaches the interface of that host |
| InterfaceManagers.ReachableOnly | src/Master/src/InterfaceManager.cpp:67-97 | a local interface reaches nothing but interfaces of other hosts on its own segment |
| InterfaceManagers.ExitLeadsTo | src/Master/src/interface/Map.cpp:105-117 | the interface pair of a table entry was wired to the next-hop host that the entry stands for |
| InterfaceManagers.TableIsRouted | src/Master/src/interface/Interface.cpp:13-27 | looking the entries up in the wiring gives, for every reachable host, the first hop of a least-weight path |
| InterfaceManagers.TableIsMisrouted | src/Master/src/interface/Map.cpp:99-117 | when the search overflows, the traffic for the far end of an overflowed link is handed to a first hop towards its near end |
| InterfaceManagers.InterfaceManager.SetMaxWeight | src/Master/src/InterfaceManager.cpp:231-234 | failing a link changes the graph by that one update, for any two names; when they are one host or share a segment the table is computed for the new graph |
| InterfaceManagers.InterfaceManager.SetInitWeight | src/Master/src/InterfaceManager.cpp:235-238 | restoring a link changes the graph by that one update, for any two names, and the table is computed for the new graph |
| InterfaceManagers.InterfaceManager.RegisterController | src/Master/src/interface/InterfaceRouter.cpp:11-13 | every path and verb finds the controller it found before, except the registered pair, which finds the new one |
| InterfaceManagers.InterfaceManager.Handle | src/Master/src/interface/InterfaceRouter.cpp:14-30 | a request for this host goes to the controller of its target and verb or nowhere; any other goes to the next host of the table, the first hop of a least-weight path unless the search overflowed |
| Forwarding.ForwardDescends | src/Master/src/InterfaceManager.cpp:120-124 | a forward lowers the least weight to the destination by the weight of the link it takes |
| Forwarding.Delivers | src/Master/src/interface/InterfaceRouter.cpp:14-30 | with tables for one graph, whatever their tie-breaks, a request for a reachable host arrives within as many forwards as its least weight |
| Forwarding.LoopFree | src/Master/src/interface/InterfaceRouter.cpp:14-30 | no request passes a host twice |
| Forwarding.NoFailedLinkOnTheWay | src/Master/src/InterfaceManager.cpp:205-238 | a request for a host that some path reaches below INT_MAX - 1 never crosses a link of weight INT_MAX - 1 |
| Forwarding.WeightAfterUpdates | src/Master/src/InterfaceManager.cpp:231-238 | after any history a link has its configured weight unless the last update that names it failed it |
| MeshNetworks.NetworkDelivers | src/Master/src/InterfaceManager.cpp:98-124 | from one configuration that all hosts read alike and any common history of updates, when no host's search overflows, every request for a reachable host arrives within as many forwards as its least weight and passes no host twice |
| MeshNetworks.NetworkAvoidsFailedLinks | src/Master/src/InterfaceManager.cpp:205-238 | in that network every forward of a request with a way below INT_MAX - 1 goes over a link whose last update did not fail it |
| MeshNetworks.ManagerIsUpToDate | src/Master/src/InterfaceManager.cpp:98-124 | an interface manager whose graph shows the history is a master as the network theorems ask for |
| MeshNetworks.NextUpdate | src/Master/src/InterfaceManager.cpp:231-238 | what the two setters do to the graph is what one more update in the history does |
| Failover.FailedLinkOverflowsIff | src/Master/src/interface/Map.cpp:99-100 | relaxing a failed link overflows exactly when its near end is two or more away |
| Failover.SafeIffFailuresNear | src/Master/src/interface/Map.cpp:97-103 | when sums without a failed link fit, the search is safe exactly when every failed link has its sooner end at most one away or out of reach, and no link heavier than 1 leads on from a host that is reached over a failed link |
| Failover.SmallWeightsFit | src/Master/src/interface/Map.cpp:97-103 | for that it is enough that the weight bound times the number of hosts fits 32 bits |
| FailoverConfigs.FourHostsExist | src/Master/src/interface/Map.cpp:50-73 | for any four names and any weight of the direct link from 3 up there is a configuration that leads to the mesh of the next rows |
| Failover.FailoverMisroutes | src/Master/src/interface/Map.cpp:99-128 | in a line of four hosts with a slower direct link, whatever the order of the rows, every table sends the traffic for the far end towards the failed link, although the direct link is the first hop of a least-weight path |
| Failover.CutOffHost | src/Master/src/interface/Map.cpp:99-128 | at a host whose two links have failed the search overflows behind them exactly when the other two hosts are two or more apart, although the host is itself the near end of both |
| FailoverLoops.NetworkSafeIff | src/Master/src/interface/Map.cpp:97-103 | with configured weights that fit 32 bits together, no search of the network overflows exactly when at no host a failure is far or has a heavy link behind it |
| FailoverLoops.CaptureLoops | src/Master/src/interface/InterfaceRouter.cpp:14-30 | in any network: if a failed link captures the traffic of a for a host, and the only way on from the next hop leads back to a, the request goes to and fro for ever, for every table that getRoute can return |
| FailoverLoops.MutualCaptureLoops | src/Master/src/interface/InterfaceRouter.cpp:14-30 | the same when the traffic is captured at both hosts, each on the way to the other |
| FailoverLoops.LineLoops | src/Master/src/InterfaceManager.cpp:120-124 | in the line of four hosts every request of the first host for the last one goes to and fro between the first two, for every table |
| FailoverLoops.CutOffArrivesIff | src/Master/src/InterfaceManager.cpp:120-124 | after both links of one of three hosts have failed, a request for it is handed to the failed link if and only if the link of the other two weighs 1; otherwise it never arrives |
| FailoverConfigs.DeliveredLoops | src/Master/config/masterconfig.json:44-48 | in the delivered configuration, after both links of host2 have failed, host1 and host3 pass every request for host2 to and fro, and the search of host2 overflows too |
| UwbFrameCodec.CalculateChecksum | src/Master/src/uwb/UwbFramecodec.cpp:85-96 | the loop computes the exclusive or of the header fields and the payload |
| UwbFrameCodec.ChecksumParity | src/Master/src/uwb/UwbFramecodec.cpp:85-96 | each bit of the checksum is the parity of that bit over source, destination, number, type (0, 1 or 2) and payload |
| UwbFrameCodec.PayloadCorruptionDetected | src/Master/src/uwb/UwbFramecodec.cpp:85-100 | a frame in which one payload byte has changed fails verification |
| UwbFrameCodec.HeaderCorruptionDetected | src/Master/src/uwb/UwbFramecodec.cpp:85-100 | a frame in which one header field has changed fails verification |
| UwbFrameCodec.Encode | src/Master/src/uwb/UwbFramecodec.cpp:19-43 | the text that the round-trip lemmas are about; the length field is cut to 16 bits |
| UwbFrameCodec.Layout | src/Master/src/uwb/UwbFramecodec.cpp:19-43 | the text of a frame with given fields, character by character |
| UwbFrameCodec.Decode | src/Master/src/uwb/UwbFramecodec.cpp:45-83 | the frame or the refusal that the round-trip lemmas are about, for every input text |
| UwbFrameCodec.HexByteBack | src/Master/src/uwb/UwbFramecodec.cpp:118-132 | a byte survives printing and the lenient parser |
| UwbFrameCodec.HexWordBack | src/Master/src/uwb/UwbFramecodec.cpp:124-136 | a 16-bit word survives printing and the lenient parser |
| UwbFrameCodec.LenientParse | src/Master/src/uwb/UwbFramecodec.cpp:130-136 | hexadecimal digits in either case, after white space, a sign or 0x and before any other text, are read as the number that they spell |
| UwbFrameCodec.NoNumber | src/Master/src/uwb/UwbFramecodec.cpp:130-136 | text that starts otherwise is no number |
| UwbFrameCodec.CutToByte | src/Master/src/uwb/UwbFramecodec.cpp:130-132 | a parsed number is cut to a byte, a negative one by adding 256 |
| UwbFrameCodec.CutToWord | src/Master/src/uwb/UwbFramecodec.cpp:134-136 | the same for 16 bits |
| UwbFrameCodec.DecodedIsSendable | src/Master/src/uwb/UwbFramecodec.cpp:45-83 | whatever is decoded has a valid checksum, a payload below 65536 bytes, and none if it is an acknowledgement |
| UwbFrameCodec.DecodeEncode | src/Master/src/uwb/UwbFramecodec.cpp:19-83 | decoding undoes encoding for exactly those frames |
| UwbHttpText.Escape | src/Master/src/uwb/UwbHandle.cpp:490-501 | the escaping that the round-trip lemmas are about |
| UwbHttpText.Unescape | src/Master/src/uwb/UwbHandle.cpp:393-408 | the unescaping that the round-trip lemmas are about, for every text |
| UwbHttpText.EscapeTable | src/Master/src/uwb/UwbHandle.cpp:490-501 | which characters are escaped, and how |
| UwbHttpText.UnescapeTable | src/Master/src/uwb/UwbHandle.cpp:393-408 | which sequences are unescaped, and to what |
| UwbHttpText.UnescapeOthers | src/Master/src/uwb/UwbHandle.cpp:393-408 | a backslash that starts no escape sequence stands for itself |
| UwbHttpText.UnescapeEscape | src/Master/src/uwb/UwbHandle.cpp:393-501 | unescaping undoes escaping for every text |
| UwbHttpText.EscapedHasNoBreak | src/Master/src/uwb/UwbHandle.cpp:490-501 | escaped text has no line break |
| UwbHttpText.ParseHttpRequest | src/Master/src/uwb/UwbHandle.cpp:387-478 | the parsing loop computes the function that the round trip is about, for every text; a text without a blank line or with another method is refused, and Content-Length is set anew |
| UwbHttpText.RefusedIff | src/Master/src/uwb/UwbHandle.cpp:413-478 | a text is refused if and only if it has no blank line or its first line, if not empty, starts with none of the four methods |
| UwbHttpText.FieldLineRead | src/Master/src/uwb/UwbHandle.cpp:452-464 | spaces around the value of a header line do not count, and a line without a colon is ignored |
| UwbHttpText.SetReplaces | src/Master/src/uwb/UwbHandle.cpp:463 | a header line replaces the fields whose names differ from its own in case only, and no others |
| UwbHttpText.LowerTable | src/Master/src/uwb/UwbHandle.cpp:463 | what is meant by case |
| UwbHttpText.SerializeHttpRequest | src/Master/src/uwb/UwbHandle.cpp:480-502 | the text is the escaped message of section 2.1 of RFC 9112 |
| UwbHttpText.Layout | src/Master/src/uwb/UwbHandle.cpp:480-489 | the message of a request with two fields, character by character, for all four methods |
| UwbHttpText.SeparatorAfterFields | src/Master/src/uwb/UwbHandle.cpp:415-421 | the first blank line of a printed request is the one after its header lines, whatever the body contains |
| UwbHttpText.FieldLinesParsed | src/Master/src/uwb/UwbHandle.cpp:452-464 | header lines with names that differ in more than case are parsed back into the same fields in the same order |
| UwbHttpText.ParseSerialize | src/Master/src/uwb/UwbHandle.cpp:387-502 | parsing undoes serialising for every well-formed request and every body, up to Content-Length, which is set to the length of the body or removed |
| UwbHttpText.PreparedIdempotent | src/Master/src/uwb/UwbHandle.cpp:466-470 | preparing a request twice is preparing it once |
| UwbHttpText.PreparedLength | src/Master/src/uwb/UwbHandle.cpp:466-470 | Content-Length is there exactly when there is a body or the method is POST or PUT, and spells the length of the body in base 10; other fields stay |
| UwbHttpText.PreparedRoundTrip | src/Master/src/uwb/UwbHostInterface.cpp:43-44 | a request that its sender has prepared comes back exactly as it was, and only such a request does |
| UwbLink.SerialReader.HandleRead | src/Master/src/uwb/UwbHandle.cpp:162-184 | one line is taken from the buffer, a carriage return at its end is dropped, and it is decoded |
| UwbLink.SerialReader.Arrive | src/Master/src/uwb/UwbHandle.cpp:154-194 | all complete lines of what has arrived are decoded in order, the rest stays in the buffer |
| UwbLink.SerialReader.ArriveAll | src/Master/src/uwb/UwbHandle.cpp:154-194 | the same for a stream that arrives in any number of pieces |
| UwbLink.PiecesDoNotMatter | src/Master/src/uwb/UwbHandle.cpp:154-184 | reading a stream in two parts, with the remainder of the first put in front of the second, gives the same lines and the same remainder as reading it whole |
| UwbLink.AnyCut | src/Master/src/uwb/UwbHandle.cpp:154-184 | what is read does not depend on how the bytes are cut into pieces, however many |
| UwbLink.ReturnsIgnored | src/Master/src/uwb/UwbHandle.cpp:167-173 | frames whose lines end with a carriage return and a newline are read like those that end with a newline |
| UwbLink.WireRoundTrip | src/Master/src/uwb/UwbHandle.cpp:271-279 | a list of frames crosses the line unchanged if and only if every frame survives the codec and has no newline in its payload |
| UwbLink.LinkRoundTrip | src/Master/src/uwb/UwbHandle.cpp:162-502 | well-formed requests of escaped size up to 65535 come out of the other end of the line prepared, in order, for every cut of the byte stream into any number of pieces; prepared ones come out exactly as they were |
| UwbHandles.Handle.constructor | src/Master/src/uwb/UwbHandle.cpp:7-11 | a new node has sent nothing and starts with sequence number 1 |
| UwbHandles.Handle.Run | src/Master/src/uwb/UwbHandle.cpp:17-43 | a node runs once its serial port could be opened |
| UwbHandles.Handle.SendHttpReliable | src/Master/src/uwb/UwbHandle.cpp:78-120 | a call is refused exactly when the node does not run or the text exceeds 65535 bytes; otherwise one DATA frame with the text, the next number and the given destination is queued, a broadcast succeeds at once, and a unicast is registered unless its number is taken |
| UwbHandles.Handle.Enqueue | src/Master/src/uwb/UwbHandle.cpp:93-102 | the first step takes the next number, skipping 0, and queues one frame |
| UwbHandles.Handle.AwaitAck | src/Master/src/uwb/UwbHandle.cpp:104-111 | the second step registers a unicast unless its number is taken, and reports success of a broadcast |
| UwbHandles.Handle.HandleReceivedFrame | src/Master/src/uwb/UwbHandle.cpp:196-269 | every kind of frame has the effect that the network is built from, and the router has received exactly the accepted frames that parse |
| UwbHandles.Handle.OnMySlot | src/Master/src/uwb/UwbHandle.cpp:296-314 | all queued data frames and then all queued acknowledgements are written, in order, and both queues are empty |
| UwbHandles.Handle.CheckTimeouts | src/Master/src/uwb/UwbHandle.cpp:325-366 | an entry that is not overdue stays as it is; an overdue one with fewer than three retries stays with one more retry and the time of now, and its frame is queued once more; an overdue one with three is gone, and its callback is told of the failure; nothing else is queued or told |
| UwbHandles.Handle.Stop | src/Master/src/uwb/UwbHandle.cpp:45-76 | the node stops, the table is empty, and every waiting callback is told of the failure once |
| UwbHandles.Handle.BeatOnce | src/Master/src/uwb/UwbHandle.cpp:368-385 | a running node queues a broadcast heartbeat with number 0 |
| UwbHandles.SeqDistinct | src/Master/src/uwb/UwbHandle.cpp:93-94 | any 255 consecutive sends use distinct numbers other than 0, and then they repeat |
| UwbHandles.StepKeeps | src/Master/src/uwb/UwbHandle.cpp:45-385 | every event keeps the accounting |
| UwbHandles.RetryAccounting | src/Master/src/uwb/UwbHandle.cpp:325-366 | in every run each call is under way, waiting, dropped, or has had its callback run exactly once; each frame was queued one to four times; registered = pending + acknowledged + timed out + cleared by stop |
| UwbHandles.GivenUpLate | src/Master/src/uwb/UwbHandle.cpp:329-357 | a frame is given up only after four copies and eight seconds |
| UwbHandles.NoneLostEarly | src/Master/src/uwb/UwbHandle.cpp:104-107 | no callback is dropped in a run of at most 255 sends |
| UwbRetries.CopiesOnLine | src/Master/src/uwb/UwbHandle.cpp:93-366 | in every run each DATA frame has been written to the line, or waits to be, exactly as often as the calls that sent it have queued it |
| UwbRetries.GivenUpAtFourth | src/Master/src/uwb/UwbHandle.cpp:325-366 | an entry that nothing acknowledges or clears has been queued once more for each check that found it two seconds old, up to three; at the fourth such check it fails, after exactly four copies |
| UwbRetries.UnansweredFails | src/Master/src/uwb/UwbHandle.cpp:104-366 | that holds from the moment at which any call of any run is registered |
| UwbRetries.RetransmissionsCounted | src/Master/src/uwb/UwbHandle.cpp:325-366 | the statistics count every copy but the first of each call |
| UwbRetries.StoppedIsQuiet | src/Master/src/uwb/UwbHandle.cpp:45-163 | a node that does not run accepts and remembers no frame, queues no acknowledgement and sends nothing new until it is started |
| UwbRetries.HeartbeatHeard | src/Master/src/uwb/UwbHandle.cpp:368-385 | a heartbeat changes nothing at a receiver but the number remembered of its sender, which becomes 0 |
| UwbNetworks.AckMeansAccepted | src/Master/src/uwb/UwbHandle.cpp:208-225 | with at most 255 sends an acknowledgement that finds a pending entry answers exactly the frame of that entry |
| UwbNetworks.AcknowledgedImpliesDelivered | src/Master/src/uwb/UwbHandle.cpp:78-366 | in every run over a lossy, duplicating and reordering channel, a success reported for a unicast by a node with at most 255 sends means that the addressee accepted exactly that frame and that a well-formed request reached its router, with its Content-Length set anew |
| UwbNetworks.StaleAcknowledgement | src/Master/src/uwb/UwbHandle.cpp:211-225 | a run of 256 sends in which success is reported for a frame that was never accepted |
| UwbNetworks.DroppedCallback | src/Master/src/uwb/UwbHandle.cpp:104-107 | a run of 256 sends in which a callback is dropped |
| UwbNetworks.FilterRemembers | src/Master/src/uwb/UwbHandle.cpp:226-237 | after any received frames the filter holds for each sender the number of its last data frame or heartbeat to this node, and what it held before if there was none |
| UwbNetworks.CopyDroppedIff | src/Master/src/uwb/UwbHandle.cpp:226-243 | after a data frame and any other frames, a further copy of it is dropped if and only if the last of these that the filter has looked up for its sender carries its number, or there is none; otherwise it is accepted again |
| UwbNetworks.OneInBetween | src/Master/src/uwb/UwbHandle.cpp:226-243 | a second copy is dropped at once, but accepted after one heartbeat or one other data frame of its sender |
| UwbTimeSlots.SameOwnerNearby | src/Master/src/uwb/UwbTimeslotmanager.cpp:35-62 | two clocks at most 100 ms apart and both in the transmission window agree on the owner of the slot |
| UwbTimeSlots.EpochEdge | src/Master/src/uwb/UwbTimeslotmanager.cpp:35-43 | the slots on both sides of the epoch belong to node 1 although the slot number wraps |
| UwbTimeSlots.TransmissionExclusion | src/Master/src/uwb/UwbTimeslotmanager.cpp:45-73 | two nodes can never transmit at the same instant under a clock skew if and only if they own different slots and the skew is at most 100 ms |
| UwbTimeSlots.ThreeNodesExclusive | src/Master/src/uwb/UwbTimeslotmanager.hpp:12-15 | nodes 1 to 3 exclude each other under a skew of 100 ms, for all clock readings |
| UwbTimeSlots.SlotOwner | src/Master/src/uwb/UwbTimeslotmanager.cpp:35-73 | from the start of 2024 on, slots last 500 ms, node i of 1 to 3 owns slot k if and only if k modulo 3 is i - 1, and may transmit in its first 400 ms |
| UwbTimeSlots.NodeZero | src/Master/src/uwb/UwbTimeslotmanager.cpp:45-52 | node 0 owns no slot |
| UwbTimeSlots.SlotManager.Tick | src/Master/src/uwb/UwbTimeslotmanager.cpp:87-118 | one turn of the monitor, with its own clock reading for the slot number, the owner and the time in the slot, calls back exactly in the window of an own slot that differs from the remembered one |
| UwbTimeSlots.SlotManager.Monitor | src/Master/src/uwb/UwbTimeslotmanager.cpp:87-118 | the callbacks of a whole run, with up to three clock readings in each turn |
| UwbTimeSlots.CallsBackIff | src/Master/src/uwb/UwbTimeslotmanager.cpp:87-112 | in a run whose turns lie within slots the callback runs exactly when the clock enters an own slot inside its window |
| UwbTimeSlots.TwiceIff | src/Master/src/uwb/UwbTimeslotmanager.cpp:92-93 | a slot gets two callbacks if and only if it is an own slot and the clock enters it inside its window twice |
| UwbTimeSlots.LeavesBetween | src/Master/src/uwb/UwbTimeslotmanager.cpp:92-93 | in between the clock is seen outside the slot |
| UwbTimeSlots.AtMostOncePerSlot | src/Master/src/uwb/UwbTimeslotmanager.cpp:87-112 | with a clock that does not go back a later callback lies in a later slot, also when the slot number wraps |
| UwbTimeSlots.SetBackFiresTwice | src/Master/src/uwb/UwbTimeslotmanager.cpp:92-93 | a clock that is set back by one slot makes the callback run twice in one slot |
| TcpPeers.TcpHostInterface.Connect | src/Master/src/tcp/TcpHostInterface.cpp:22-31 | a connect is under way afterwards, and it is a new one unless one was under way |
| TcpPeers.TcpHostInterface.Write | src/Master/src/tcp/TcpHostInterface.cpp:54-64 | the head of the queue is handed to the stream when it is connected and idle |
| TcpPeers.TcpHostInterface.SendRequest | src/Master/src/tcp/TcpHostInterface.cpp:65-73 | the request joins the queue; a peer that is not connected is connecting afterwards, and a connected one writes |
| TcpPeers.TcpHostInterface.ConnectDone | src/Master/src/tcp/TcpHostInterface.cpp:39-53 | the completion of a connect, including the requests that re-enter from the broadcasts |
| TcpPeers.TcpHostInterface.WriteDone | src/Master/src/tcp/TcpHostInterface.cpp:74-86 | the completion of a write |
| TcpPeers.TcpHostInterface.ReconnectTimeout | src/Master/src/tcp/TcpHostInterface.cpp:87-98 | a peer that is not connected is connecting after the timer has expired |
| TcpPeers.TcpHostInterface.New | src/Master/src/interface/HostInterface.cpp:18-28 | both broadcasts of a new connection, after which no failures are counted |
| TcpPeers.TcpHostInterface.Fail | src/Master/src/interface/HostInterface.cpp:29-39 | a failure is counted, and exactly the sixth is broadcast |
| TcpPeers.StepKeeps | src/Master/src/tcp/TcpHostInterface.cpp:22-98 | every event keeps the invariant of the two classes |
| TcpPeers.PeerInvariant | src/Master/src/tcp/TcpHostInterface.cpp:22-98 | in every run, with any re-entrant requests: at most one connect or write is under way; connected means not connecting and no failures counted; a write under way means connected; attempted requests followed by the queue are the requests sent; a connected peer with work is writing |
| TcpPeers.AlwaysReconnects | src/Master/src/tcp/TcpHostInterface.cpp:22-98 | in every run, after run, after a request or an expired timer on a peer that is not connected, and after a write error, exactly one connect is under way |
| TcpPeers.TimerOnly | src/Master/src/tcp/TcpHostInterface.cpp:39-98 | the timer does nothing else, and after a failed connect the peer waits for it |
| TcpPeers.ConnectAttempts | src/Master/src/tcp/TcpHostInterface.cpp:39-53 | a successful connect announces the host and its links, and hands over the first request that waits, re-entrant ones included |
| TcpPeers.WriteAttempts | src/Master/src/tcp/TcpHostInterface.cpp:74-86 | a successful write hands over the next request |
| TcpPeers.Recovers | src/Master/src/tcp/TcpHostInterface.cpp:22-98 | from every reachable state the timer, one successful connect and as many successful writes as are queued leave every request attempted that was ever sent |
| TcpPeers.WriteErrorIsQuiet | src/Master/src/tcp/TcpHostInterface.cpp:77-83 | a write error counts the first failure, so the sixth-failure broadcast cannot fire inside it |
| TcpPeers.BroadcastInWriteErrorBreaks | src/Master/src/interface/HostInterface.cpp:29-39 | a peer with five counted failures and a write under way would break the invariant, so the previous fact is needed |
| PubSubChannels.SharedQueue.Publish | src/Node/include/hmw/Publisher.hpp:82-91 | a message is queued and signalled once if there is room, and dropped otherwise |
| PubSubChannels.SharedQueue.Publish2Node | src/Master/src/shm/Subscribe.cpp:64-69 | the same for the second queue |
| PubSubChannels.SharedQueue.OnEventfdRead | src/Master/src/shm/Publish.cpp:70-86 | as many pops as were counted succeed and return the messages in order |
| PubSubChannels.StepKeeps | src/Master/src/shm/Publish.cpp:38-86 | every step of every process keeps the invariant of all queues, also while several publishers wait to be drained and while publishers and subscribers come and go |
| PubSubChannels.NoPopFails | src/Node/include/hmw/Subscriber.hpp:86-102 | in every interleaving, with reads that complete at any time, the queue length is the counter plus the pops owed plus one between push and signal, so no pop fails |
| PubSubChannels.QuietIffDelivered | src/Master/src/shm/Publish.cpp:66-86 | in every run everything that was pushed to a queue has been popped if and only if nothing is signalled, owed or half pushed |
| PubSubChannels.ReceivedInOrder | src/Master/src/MiddlewareManager.cpp:26-45 | in every interleaving a subscriber receives of each publisher an in-order subsequence, without repetition, of what it published, also after either of them has been removed |
| PubSubDeliveries.OnlyItsTopic | src/Master/src/MiddlewareManager.cpp:26-45 | in every run whatever is pushed to a subscriber was published under the topic that it subscribed to, or came in from another host with that topic |
| PubSubDeliveries.DeliveredToTopic | src/Master/src/MiddlewareManager.cpp:26-45 | when nobody is left to be served with a message, each subscriber that was listed under its topic has received it, unless its queue was full when it was its turn, and no other subscriber has received anything |
| PubSubDeliveries.OfferEnters | src/Node/include/hmw/Publisher.hpp:82-91 | in every run an offer enters the queue as the next message of its publisher if and only if there is room |
| PubSubDeliveries.NeverStuck | src/Master/src/shm/Publish.cpp:66-86 | in every reachable state with something left to read, pop or push the master can take a step |
| PubSubDeliveries.RemovedIsLeft | src/Master/src/shm/Publish.cpp:38-86 | a publisher that is removed while no read of it has completed is never popped again; otherwise the master goes on reading it |
| Registries.Node.AddPublish | src/Master/src/shm/Node.cpp:35-38 | the topic finds the object, and every other topic finds what it found before; the subscriptions stay |
| Registries.Node.AddSubscribe | src/Master/src/shm/Node.cpp:39-42 | the same for subscriptions; the publications stay |
| Registries.Node.RemoveAllPublish | src/Master/src/shm/Node.cpp:61-68 | the table is empty and its objects are returned in an unspecified order |
| Registries.Node.RemoveAllSubscribe | src/Master/src/shm/Node.cpp:69-76 | the same for subscriptions |
| Registries.NodeRegistry.Add | src/Master/src/shm/controller/NodeController.cpp:23-31 | a node is added unless its name is taken, also by a null pointer |
| Registries.NodeRegistry.AddSub | src/Master/src/shm/controller/NodeSubController.cpp:24-41 | a subscription is done if and only if the node is registered and not null, has no subscription to the topic, and the object ran; all outcomes with the table and the list of the topic |
| Registries.NodeRegistry.AddPub | src/Master/src/shm/controller/NodePubController.cpp:24-41 | the same for a publication |
| Registries.NodeRegistry.Delete | src/Master/src/shm/controller/NodeController.cpp:51-80 | deleting a live node erases it and its objects and nothing else; an unknown name leaves a null pointer |
| Registries.RemoveEach | src/Master/src/shm/controller/NodeController.cpp:55-72 | removing the returned objects one by one, in any order, gives the index without the node |
| Registries.IndexAgreement | src/Master/src/shm/controller/NodeController.cpp:23-80 | in every reachable state each topic list holds, without duplicates, exactly the objects of live nodes on that topic, and no list is empty |
| Registries.EraseStep | src/Master/src/shm/controller/NodeController.cpp:51-80 | an operation on a node is invisible once the node is erased, and any other operation commutes with the erasure |
| Registries.DeleteLeavesNoTrace | src/Master/src/shm/controller/NodeController.cpp:51-80 | after the deletion of a node the registry is the one that the operations on the other nodes alone produce, with every list in the same order |
| Registries.NullIffUnknownDelete | src/Master/src/shm/controller/NodeController.cpp:53 | a name is mapped to null exactly when it was deleted at some time without being registered |
| Registries.NullIsStuck | src/Master/src/shm/controller/NodeController.cpp:53-78 | such a name stays null under every operation on it, which is refused or crashes |
| RegistryHistories.RegisteredIff | src/Master/src/shm/controller/NodeController.cpp:23-80 | after every sequence of operations a node is registered if and only if it was added and not deleted since, unless it was once deleted without being registered |
| RegistryHistories.AnswerIff | src/Master/src/shm/controller/NodeController.cpp:23-80 | what the registry answers to any operation, told from the history alone |
| RegistryHistories.AcceptedIff | src/Master/src/shm/controller/NodeSubController.cpp:24-41 | a subscription (publication) succeeds if and only if its node stands registered, no accepted one of the node for the topic stands, and the object ran |
| RegistryHistories.TableIff | src/Master/src/shm/controller/NodePubController.cpp:24-41 | the table of a node has exactly the topics of the accepted ones that stand |
| RegistryHistories.ListIs | src/Master/src/shm/controller/NodeController.cpp:23-80 | the list of every topic holds exactly the accepted ones that stand, in the order in which they were accepted |
| Mirrors.GetAllNodeInfo | src/Master/src/MiddlewareManager.cpp:46-105 | the snapshot describes exactly the live nodes, each once, unless there is a null pointer |
| Mirrors.TopicList | src/Master/src/shm/Node.cpp:77-90 | the topics of a table with their types |
| Mirrors.MirrorStep | src/Master/src/InterfaceManager.cpp:125-174 | replaying what an operation broadcasts turns the mirror of the registry into the mirror of the changed registry |
| Mirrors.SnapshotIsMirror | src/Master/src/interface/controller/NewController.cpp:10-35 | a /new message makes the tables of the peer equal to the registry, whatever they held |
| Mirrors.MirrorFollows | src/Master/src/interface/Host.cpp:13-44 | after a /new message, or from empty tables, the tables of the peer equal the registry of the sender in every later state of every run |
| RegistryHistories.PeerTold | src/Master/src/InterfaceManager.cpp:125-174 | in every run a peer that starts with the host knows exactly the topics, with their types, of what the history accepted and left standing |
| Mirrors.TopicsAlwaysSound | src/Master/src/interface/controller/NodeSubController.cpp:11-19 | in every run of messages from any hosts a host is named for a topic only if its mirrored tables have a subscriber |
| Mirrors.NewIsExact | src/Master/src/interface/controller/NewController.cpp:10-35 | after a /new message the sender is named for exactly the topics of its tables |
| Mirrors.OthersUntouched | src/Master/src/interface/controller/NewController.cpp:47-73 | a message of one host changes neither the tables nor the topics of another |
| Mirrors.AddingKeepsComplete | src/Master/src/interface/controller/NodeSubController.cpp:11-19 | additions keep every subscriber of the host named |
| Mirrors.DeleteCompleteIff | src/Master/src/interface/controller/NodeController.cpp:17-25 | after the deletion of a node its host is named for all its remaining subscribers if and only if it has none |
| Mirrors.NamedIff | src/Master/src/interface/controller/NewController.cpp:10-35 | in every run of messages from any hosts, a host is named for a topic if and only if one of its messages told of a subscriber and it has neither deleted a node nor sent a /new message without the topic since |
| Mirrors.CompleteIff | src/Master/src/interface/controller/NodeSubController.cpp:11-19 | so topic2host names a host for all its mirrored subscribers if and only if it has told of each of their topics since it last deleted a node |
| Mirrors.IncompleteReached | src/Master/src/interface/controller/NodeController.cpp:17-25 | after any messages, two subscriptions of two nodes to a topic and the deletion of one node leave the other unnamed |
| PeerTables.Host.DeleteNode | src/Master/src/interface/Host.cpp:16-27 | the node is gone from all three tables, and the topics of all nodes, the deleted one included, are returned |
| PeerTables.Host.AddSub | src/Master/src/interface/Host.cpp:28-30 | the topic is entered for the node |
| PeerTables.Host.AddPub | src/Master/src/interface/Host.cpp:34-36 | the topic is entered for the node |
| PeerTables.InterfaceTables.HandleNew | src/Master/src/interface/controller/NewController.cpp:47-73 | the loops have the effect of one message on the tables of its sender and on the topics |
| PeerTables.InterfaceTables.HandleNodeDelete | src/Master/src/interface/controller/NodeController.cpp:17-25 | the same for the deletion of a node |
| PeerTables.InterfaceTables.HandleNodePost | src/Master/src/interface/controller/NodeController.cpp:10-16 | the same for a new node |
| PeerTables.InterfaceTables.HandleSubPost | src/Master/src/interface/controller/NodeSubController.cpp:11-19 | the same for a subscription |
| PeerTables.InterfaceTables.HandlePubPost | src/Master/src/interface/controller/NodePubController.cpp:11-18 | the same for a publication |
| ChunkedDecoder.Receive | src/Dgps/src/ntripclient.cpp:1575-1641 | the loop over one buffer consumes input in every turn and has the effect of its bytes one by one |
| ChunkedDecoder.ReceiveAll | src/Dgps/src/ntripclient.cpp:1575-1641 | the result depends on the concatenation of the buffers alone |
| ChunkedDecoder.AlwaysValid | src/Dgps/src/ntripclient.cpp:1599-1630 | in mode 4 there is always something left to write, for every input |
| ChunkedDecoder.HexDigits | src/Dgps/src/ntripclient.cpp:1588-1590 | the digits are 0123456789abcdef and 0123456789ABCDEF with these values, and nothing else |
| ChunkedDecoder.SpellsIff | src/Dgps/src/ntripclient.cpp:1588-1590 | a text spells a number if and only if all its characters are digits and the computation gives that number |
| ChunkedDecoder.Spelled | src/Dgps/src/ntripclient.cpp:1588-1590 | every size has a spelling in each of the two alphabets |
| ChunkedDecoder.LeadingZero | src/Dgps/src/ntripclient.cpp:1584-1590 | a zero may be put before any spelling |
| ChunkedDecoder.SizeRead | src/Dgps/src/ntripclient.cpp:1584-1595 | every spelling of a size in base 16, in either case and with leading zeros, is read as the size, unless the last sum, which contains the code of the last digit, exceeds INT_MAX; then it overflows |
| ChunkedDecoder.SizeBounds | src/Dgps/src/ntripclient.cpp:1588-1590 | sizes up to INT_MAX - 87 are read in every spelling, sizes above INT_MAX - 48 in none |
| ChunkedDecoder.AcceptedIff | src/Dgps/src/ntripclient.cpp:1581-1634 | the decoder stands between chunks having written some output exactly when the input is a sequence of size lines, each a spelling of the length of the data after it, and the output is that data |
| ChunkedDecoder.ChunkedRoundTrip | src/Dgps/src/ntripclient.cpp:1575-1641 | for every split of a well-formed stream without extensions and trailers, with sizes in any spelling, the output is the concatenated chunk data |
| ChunkedDecoder.ExtensionHangs | src/Dgps/src/ntripclient.cpp:1631-1633 | after a size and a semicolon any further byte makes the loop run for ever |
| ChunkedDecoder.HangsIff | src/Dgps/src/ntripclient.cpp:1581-1634 | the loop runs for ever if and only if the input is some chunks, the digits of a size that does not overflow, a semicolon and at least one more byte |
| Base64.Encode | src/Dgps/src/ntripclient.cpp:505-543 | the buffer holds as much of the text as fits with its NUL, nothing at or beyond the given size is written, and the result is the length of the whole text |
| Base64.NextGroup | src/Dgps/src/ntripclient.cpp:511-516 | three more bytes of the credentials are taken, or all that are left |
| Base64.SymbolIsTable | src/Dgps/src/ntripclient.cpp:496-504 | the alphabet is table 1 of RFC 4648 |
| Base64.TestVectors | src/Dgps/src/ntripclient.cpp:505-543 | test vectors of section 10 of RFC 4648 |
| Base64.DecodeEncode | src/Dgps/src/ntripclient.cpp:496-540 | decoding by section 4 of RFC 4648 inverts the encoding of every byte sequence |
| Base64.CredentialsInvert | src/Dgps/src/ntripclient.cpp:505-543 | the buffer decodes to user, colon, password if and only if it has room for the text and its NUL, and the password is not empty or the length of the user name is no multiple of three |

## Left out

- Sockets, the serial port, shared memory, eventfd and pidfd calls, threads and mutexes: the model has the steps of the queues, counters and handlers; the results of opening a port or running a new object are parameters.
- Protobuf, JSON and logging: snapshots and configurations are datatypes, and reading the configuration file is not part of this model.
- Boost.Beast: HTTP text is a start line, field lines, a blank line and a body. Of `prepare_payload` only Content-Length is modelled, not its changes to Transfer-Encoding.
- InterfaceManager: `broadcast` and `publish` loop over hosts that are assumed to have a route; what they send enters the peer model as parameters.
- InterfaceManagers.InterfaceManager.Handle: asks that the table has an entry for the destination, as it does for reachable ones when the search is safe, because the code looks up a missing route with `operator[]` and then uses a null pointer.
- InterfaceManagers.InterfaceManager.SetMaxWeight: promises nothing about the table when the two hosts share no segment; failing such a pair creates a link that no interface carries.
- InterfaceManagers.InterfaceManager.constructor: asks that no interface name is ambiguous where this host looks it up, and that no override makes a link between hosts without a common segment.
- HostMaps.HostMap.Init: asks for distinct host names that include the local one, because rows are indexed by name.
- Interface types other than tcp and uwb, for which the code keeps a null pointer.
- A message from a host that is not configured, which the peer handlers look up with `operator[]` and then use as a null pointer.
- PeerTables: `deleteSub` and `deletePub`, which no handler calls.
- UWB statistics other than acknowledgements, retransmissions and timeouts, and write errors on the serial port, which lose a frame like the channel does.
- UwbTimeSlots.TwiceIff: is about runs in which the readings of each turn lie in one slot, after the epoch and before the slot number wraps; a turn that straddles a slot boundary is in the contracts of `Tick` and `Monitor` only.
- UWB exactly-once delivery, progress after a lost acknowledgement, and draining the queues within the window: the code does not promise them.
- UwbHandles.Handle.SendHttpReliable: numbers the callbacks in the order of the calls, so that a history can speak of them; the code stores the callback itself.
- UwbNetworks.AcknowledgedImpliesDelivered: no node has the broadcast id 255, and frames are lost, repeated and reordered but not altered.
- UwbHttpText.ParseSerialize: is about GET, POST, PUT and DELETE with a target without white space, field names that differ in more than case and hold no colon, and fields without line breaks and without spaces at the ends of their values.
- Mirrors.MirrorFollows: assumes that the messages of a host arrive in order and without loss; a failed write to a neighbour does lose its request.
- Registries.RemoveEach: tells objects apart by node, topic and type, of which at most one is live; the code compares pointers.
- Read timeouts and cancellation of the TCP stream (`onTimeout`): they end the operation under way, which the model sees as its failed completion.
- ChunkedDecoder.Receive: treats the signed overflow of the chunk size, which is undefined in C++, as an end of the run, and stops where the program would run for ever; `args->stop` and errors of the serial device are not modelled.
- The rest of the NTRIP client, the local planner, the simulation, the GUI, the command-line tools, and the copies of the sources under `entry`.
