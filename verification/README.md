# r-wire capture back end, modelled in Dafny

r-wire is a desktop packet analyser. Its Rust back end does five things:

- A capture thread reads frames from a network interface.
- A capture loop summarises each frame and keeps its raw bytes in a bounded cache ordered by packet id. It also groups summaries into batches for the front end.
- A dissector breaks a frame into a protocol-layer tree.
- A writer exports selected packets as a classic libpcap file.
- Commands let the front end start and stop a session, inspect a packet and export a selection.

This project models that back end as pure functions over immutable values. It proves what the code promises about them.

Modules, one per concern:

- `MachineInt` holds the Rust integer types as subset types of `int`. It spells out the wrapping casts (`as u32`, wrapping `i64` arithmetic) and Rust's truncating `/` and `%`.
- `Model` holds the records of `model.rs`.
- `Headers` decodes Ethernet II, IPv4, IPv6, TCP and UDP headers the way the packet library presents them. A header parses exactly when the buffer holds its fixed part. Fields are read big-endian at their standard offsets. Ethernet and UDP payloads are everything after the 14- or 8-byte header, since the UDP length field is not consulted. A TCP payload is everything after the data-offset header. IPv4 and IPv6 payloads are bounded by the total-length and payload-length fields and clamped to the bytes present.
- `Dissector` covers `parse_summary`, `dissect_packet` and `parse_application_layer`. Text rendering comes in as a `Format` parameter, so every property holds for any rendering: addresses, decimal and hexadecimal numbers, protocol names and the UTF-8 check.
- `PcapFormat` is an independent reader of the libpcap file format. It decodes the 24-byte global header and the 16-byte record headers, all little-endian. `Export` is the writer, and is proved against this reader.
- `PacketCache` is the id-ordered cache, with insertion and trimming to 100 000 entries.
- `Capture` covers the capture thread's numbering and time stamps, the drain loop and the batching rule. It also has the capture loop as a step function over an event trace, with an abstract millisecond clock.
- `Sorting` is the stable sort by id used before export.
- `Commands` covers `start_capture`, `stop_capture`, `get_packet_detail` and `export_pcap` over the shared application state.

## Model

| member | source | states |
|---|---|---|
| `MachineInt.AsU32` | src-tauri/src/export.rs:35 | the `as u32` cast keeps values already in range and otherwise differs by a multiple of 2^32 |
| `MachineInt.WrapI64` | src-tauri/src/capture.rs:54-55 | wrapping `i64` arithmetic keeps in-range values and otherwise agrees modulo 2^64 |
| `MachineInt.Rem` | src-tauri/src/export.rs:70 | Rust `%` takes the sign of the dividend and satisfies a == (a / b) * b + a % b with truncating `/` |
| `Headers.ParseEthernet` | src-tauri/src/dissector.rs:22 | an Ethernet view exists exactly when the frame holds 14 bytes, and its payload is everything after them |
| `Headers.ParseIpv4` | src-tauri/src/dissector.rs:26 | an IPv4 view exists exactly when 20 bytes are present, and its protocol is byte 9 |
| `Headers.ParseIpv6` | src-tauri/src/dissector.rs:55 | an IPv6 view exists exactly when 40 bytes are present, and its next header is byte 6 |
| `Headers.ParseTcp` | src-tauri/src/dissector.rs:37 | a TCP view exists exactly when 20 bytes are present, and its destination port is bytes 2-3 big-endian |
| `Headers.ParseUdp` | src-tauri/src/dissector.rs:44 | a UDP view exists exactly when 8 bytes are present, and its destination port is bytes 2-3 big-endian |
| `Dissector.ParseSummary` | src-tauri/src/dissector.rs:21-88 | a frame shorter than an Ethernet header has no summary; a summary exists exactly when the headers the EtherType announces are complete; it keeps the given id and time stamp, and its length is the frame length cast to u32 |
| `Dissector.SummaryProtocolTag` | src-tauri/src/dissector.rs:24-76 | the protocol tag is TCP/UDP/ICMP/IPv4 from the IPv4 protocol byte, TCP/UDP/ICMPv6/IPv6 from the IPv6 next header, ARP for ARP and Unknown for any other EtherType, each as an if-and-only-if |
| `Dissector.SummaryIpInfo` | src-tauri/src/dissector.rs:24-66 | for IP frames the addresses are rendered from the header's address bytes, the info starts with "src → dst", and it carries a " [port]" suffix exactly for IPv4 TCP or UDP whose transport header is complete, the port being the destination port |
| `Dissector.SummaryLinkOnly` | src-tauri/src/dissector.rs:67-76 | for ARP and unknown EtherTypes the addresses are the Ethernet source and destination MACs and the info equals the protocol tag |
| `Dissector.ParseApplicationLayer` | src-tauri/src/dissector.rs:269-335 | an empty payload adds no layer; a non-empty one appends exactly one layer and leaves the earlier layers alone; that layer is DNS, HTTP, HTTPS or application data, and never HTTP(S) over UDP |
| `Dissector.ApplicationLayerChoice` | src-tauri/src/dissector.rs:281-334 | DNS iff either port is 53, with "53 (Response)" iff the source port is 53; otherwise HTTPS/HTTP iff TCP on port 80 or 443 with a valid UTF-8 head starting with a method or response marker, Secure iff a port is 443; otherwise application data; the last field is always the payload length |
| `Dissector.HttpMarkersExclusive` | src-tauri/src/dissector.rs:307-317 | no payload head starts with two of GET, POST, PUT, DELETE and HTTP/, so the order of the checks never decides the outcome |
| `Dissector.TcpLayers` | src-tauri/src/dissector.rs:128-150 | a TCP layer is added exactly when the segment holds a TCP header, followed by at most one application layer |
| `Dissector.UdpLayers` | src-tauri/src/dissector.rs:151-170 | a UDP layer is added exactly when the datagram holds a UDP header, followed by at most one DNS or application-data layer |
| `Dissector.Ipv4Layers` | src-tauri/src/dissector.rs:108-182 | the IPv4 layer follows the link layer, with at most two more layers after it |
| `Dissector.Ipv6Layers` | src-tauri/src/dissector.rs:183-245 | the IPv6 layer follows the link layer, with at most two more layers after it |
| `Dissector.InnerLayers` | src-tauri/src/dissector.rs:107-256 | the layer tree exists exactly when an announced IP header is complete; it has one to four layers and starts with the Ethernet layer |
| `Dissector.DissectPacket` | src-tauri/src/dissector.rs:91-266 | a detail exists exactly when a summary does; its summary is the one with time stamp 0, its raw bytes are the input, and it has one to four layers, the first being Ethernet with fields Destination, Source and Type in that order |
| `Dissector.Ipv4Layering` | src-tauri/src/dissector.rs:108-182 | under IPv4 the names run Ethernet, IPv4, then possibly one transport layer and at most one application layer above TCP or UDP; the third layer is TCP (UDP) iff the protocol byte is 6 (17) and the IP payload holds a complete TCP (UDP) header, and ICMP iff the protocol byte is 1 |
| `Dissector.Ipv6Layering` | src-tauri/src/dissector.rs:183-245 | under IPv6 the names run Ethernet, IPv6, then possibly one transport layer and at most one application layer; the third layer is TCP (UDP) iff the next header is 6 (17) and the IP payload holds a complete TCP (UDP) header |
| `Dissector.DissectLayering` | src-tauri/src/dissector.rs:91-266 | every dissected layer list is well stacked (link, network, transport, application, each at most once, in order), with ARP alone above Ethernet and nothing above an unknown EtherType |
| `Export.LeU16` | src-tauri/src/export.rs:20-21 | a u16 is written as two bytes that the reader decodes back to it |
| `Export.LeU32` | src-tauri/src/export.rs:19-25 | a u32 is written as four bytes that the reader decodes back to it |
| `Export.LeI32` | src-tauri/src/export.rs:22 | an i32 is written as its two's complement bytes, which the signed reader decodes back to it |
| `Export.LeU16Inverse` | src-tauri/src/export.rs:20-21 | every 2-byte field is the encoding of what it decodes to, so the encoding is a bijection |
| `Export.LeU32Inverse` | src-tauri/src/export.rs:39-42 | every 4-byte field is the encoding of what it decodes to |
| `Export.WritePcapHeader` | src-tauri/src/export.rs:10-27 | the global header is 24 bytes, opens with D4 C3 B2 A1, and reads back as magic 0xA1B2C3D4, version 2.4, zone 0, accuracy 0, snapshot length 65535, link type 1 |
| `Export.WritePacket` | src-tauri/src/export.rs:29-48 | a record is 16 + data length bytes ending in the data, and its header reads back as the given seconds and microseconds with captured and original length both the data length cast to u32 |
| `Export.RecordRoundTrip` | src-tauri/src/export.rs:29-48 | the reader recovers from a written record, followed by anything, exactly that record and the bytes after it |
| `Export.SplitTimestamp` | src-tauri/src/export.rs:67-70 | for 0 <= ns < 2^32·10^9 the microseconds are at most 999 999 and sec·10^9 + usec·1000 <= ns < sec·10^9 + usec·1000 + 1000 |
| `Export.ExportPcap` | src-tauri/src/export.rs:50-78 | the file opens with the 24-byte global header, and when every cached frame is shorter than 2^32 bytes a reader recovers from it the promised header and exactly one record per cached list entry, in list order, each with that packet's bytes and converted time stamp; uncached ids are skipped |
| `Export.InCache` | src-tauri/src/export.rs:63-64 | the written entries are list entries whose id is cached, never more than the list holds, and the whole list when every id is cached |
| `Export.InCacheMultiplicity` | src-tauri/src/export.rs:62-64 | a list entry is written as many times as it occurs in the list when its id is cached, and never otherwise |
| `Export.InCacheAppend` | src-tauri/src/export.rs:62-64 | the entries written for two lists back to back are those written for the first followed by those for the second, so list order is kept |
| `Export.RecordsRoundTrip` | src-tauri/src/export.rs:62-75 | the record section alone reads back as exactly one record per cached list entry, in list order, each with that packet's bytes and converted time stamp |
| `PacketCache.MinKey` | src-tauri/src/capture.rs:114 | the first key of the ordered map is a key and is at most every key |
| `PacketCache.EvictLowest` | src-tauri/src/capture.rs:111-118 | removing the first key n times removes exactly the n lowest keys, so every removed key is below every kept one, and kept entries keep their frames |
| `PacketCache.InsertAndEvict` | src-tauri/src/capture.rs:102-118 | after insert and trim the cache holds at most 100 000 entries; within the bound it is exactly the map with the frame inserted; above it, it holds 100 000 entries and the removed keys are exactly the surplus lowest ones; no other key appears and kept entries are unchanged |
| `PacketCache.FreshIdSurvives` | src-tauri/src/capture.rs:103-118 | an id above every cached id is never trimmed, and its frame is stored |
| `Capture.CaptureTimestamp` | src-tauri/src/capture.rs:54-55 | for seconds below 2^32 and microseconds below 10^6 the time stamp is tv_sec·10^9 + tv_usec·1000 without wrapping |
| `Capture.Number` | src-tauri/src/capture.rs:45-57 | the frames are sent in order with ids counter + 1, counter + 2, ..., their bytes, and their computed time stamps |
| `Capture.NumberingFromZero` | src-tauri/src/capture.rs:45-50 | a fresh capture thread's ids start at 1 and strictly increase |
| `Capture.ExportedTimestampRoundTrip` | src-tauri/src/capture.rs:54-55 | the exporter's split of a capture time stamp gives back the seconds and microseconds the capture library reported |
| `Capture.SummariesComplete` | src-tauri/src/capture.rs:99-126 | the frames yield one summary each iff every frame has a summary, and then the summary at each position is that frame's own |
| `Capture.Drain` | src-tauri/src/capture.rs:95-142 | draining appends to the batch exactly the summaries of the frames that have one, in arrival order; the cache stays within its bound; every new cache key is the id of a drained frame that has a summary |
| `Capture.UnparsableFrameIgnored` | src-tauri/src/capture.rs:99-126 | a frame without a summary is neither cached nor batched |
| `Capture.NewestFrameCached` | src-tauri/src/capture.rs:99-125 | a summarised frame with an id above every cached id is in the cache after it is received |
| `Capture.DrainKeepsNewest` | src-tauri/src/capture.rs:95-131 | the newest summarised frame of a drain, with the highest id, is still cached when the drain ends |
| `Capture.Flush` | src-tauri/src/capture.rs:145-154 | a batch is emitted iff it is non-empty and holds at least 50 summaries or 250 ms have passed since the last emission; after emission nothing waits and the timer restarts; otherwise nothing changes |
| `Capture.FlushSettles` | src-tauri/src/capture.rs:145-154 | after the check no emission is owed, and checking again at the same instant changes nothing |
| `Capture.StepConserves` | src-tauri/src/capture.rs:79-157 | in one round the emitted batches followed by what still waits equal what waited before followed by the new summaries; no emitted batch is empty; the stop signal and a closed channel flush everything before the loop ends; a continuing round owes no emission; the cache bound holds |
| `Capture.RunConserves` | src-tauri/src/capture.rs:79-160 | over a whole session every delivered summary is emitted once, in arrival order, except those still waiting; an ended session leaves nothing waiting; the cache never exceeds its bound |
| `Sorting.Insert` | src-tauri/src/lib.rs:188 | inserting into a sorted list gives a sorted list with the entry added |
| `Sorting.InsertStable` | src-tauri/src/lib.rs:188 | the inserted entry goes after every entry that already has its id |
| `Sorting.SortById` | src-tauri/src/lib.rs:188 | the sorted list is ordered by id and is a permutation of the input |
| `Sorting.SortStable` | src-tauri/src/lib.rs:188 | entries that share an id keep their relative order |
| `Sorting.SortedPairwise` | src-tauri/src/lib.rs:188 | in a sorted list every id is at most every later id |
| `Sorting.SortMembers` | src-tauri/src/lib.rs:188-190 | the sorted list is as long as the input and holds only its entries |
| `Commands.StartCapture` | src-tauri/src/lib.rs:59-90 | starting fails iff a session is active, and then fails with "Capture already in progress" and changes nothing; otherwise the session becomes active with an empty cache |
| `Commands.StopCapture` | src-tauri/src/lib.rs:104-110 | afterwards the session is idle and the cache untouched whatever happens; the result is an error iff a session was active and the stop signal could not be sent, with the message "Failed to send stop signal: " and the reason |
| `Commands.GetPacketDetail` | src-tauri/src/lib.rs:125-139 | an uncached id gives "Packet not found in cache."; a cached one succeeds iff its frame has a summary and otherwise gives "Failed to dissect packet."; a detail is exactly the dissection of the cached frame under the requested id, so it carries the cached bytes, that id, and the well-stacked layers `Dissector.DissectLayering` describes |
| `Commands.Selected` | src-tauri/src/lib.rs:172-181 | every collected summary is the summary, with its cached time stamp, of a requested and cached id |
| `Commands.Collect` | src-tauri/src/lib.rs:175-179 | a requested id yields one summary iff it is cached and its frame summarises, and that summary carries the id and the cached time stamp |
| `Commands.SelectedMultiplicity` | src-tauri/src/lib.rs:173-181 | a requested id contributes as many summaries as it occurs in the request when it is cached and its frame summarises, and none otherwise |
| `Commands.ExportPcapCommand` | src-tauri/src/lib.rs:158-194 | an empty request gives "No packets to export"; an empty collection gives "No valid packets found in cache"; a failed file creation gives "Failed to create file: " and the reason; otherwise the count is the number of collected summaries |
| `Commands.OrderCached` | src-tauri/src/lib.rs:175-191 | every entry of the export order is cached, so the writer skips none |
| `Commands.ExportCountMatchesFile` | src-tauri/src/lib.rs:187-193 | when every cached frame is shorter than 2^32 bytes, the reported count is the length of the export order, every entry of that order is cached and ids do not decrease along it, and the written file reads back as the global header followed by exactly one record per entry of that order, with its cached bytes and time stamp |
| `Commands.StartStopStart` | src-tauri/src/lib.rs:65-109 | once stopped, a session can always be started again, even if the stop signal failed |
| `Commands.RepeatedCommands` | src-tauri/src/lib.rs:65-109 | a second start during a session fails and changes nothing, and a second stop always succeeds |
| `Commands.NewestFrameInspectable` | src-tauri/src/lib.rs:129-138 | after a session starts and its capture task drains frames numbered from 1, the newest frame, if it has a summary, can be inspected and its detail carries the captured bytes |

## Left out

- The packet library's header classes are not part of this model. `Headers` assumes their behaviour: the standard fixed header sizes, big-endian fields at the standard offsets, and payload bounds per header: Ethernet and UDP payloads run to the end of the frame (the UDP length field is not consulted), a TCP payload starts after the data-offset header, and IPv4 and IPv6 payloads follow the total-length and payload-length fields, clamped to the bytes present.
- Text rendering is a parameter (`Dissector.Format`). This covers the `Display` of MAC, IPv4 and IPv6 addresses, decimal and `{:0Nx}` formatting, protocol names, and `std::str::from_utf8`. The model proves nothing about the rendered characters themselves.
- Threads, channels, the `tokio::select!` race and the 10 ms sleep are replaced by an explicit event trace: a stop signal, or a poll that drained some frames and found the channel empty or closed.
- Mutex locking and lock poisoning (the `Failed to lock ...` errors) are left out. So is a failed cache lock in the capture loop, where a summary is batched without its frame being cached.
- Opening the capture device is left out, together with its `PermissionError` / `Failed to open device` / `Failed to activate capture` errors, the packet-read errors that end the capture thread, and the libpcap snapshot length.
- The clock is an abstract millisecond counter. `Instant::now` becomes a parameter.
- Emitting events to the front end is left out. A batch counts as emitted whether or not delivery fails, as in the code, which only logs the failure.
- File I/O during export is left out apart from the file-creation failure. The export yields the bytes that would be written; failures of individual writes (`Failed to write PCAP header`, `Failed to write packet`) are not modelled.
- `list_interfaces` and the Tauri application setup and logging are left out: they are plumbing around external libraries.
- `Capture.Number`: requires the id counter not to overflow u64. The code would panic in a debug build or wrap in release, after 2^64 frames.
- `Capture.CaptureTimestamp`: its contract states the value only for seconds below 2^32 and microseconds below 10^6. Outside that range a debug build panics on the `i64` overflow, and a release build wraps. The model computes the wrapping result but states nothing about it.
- `Export.SplitTimestamp`: its contract covers only 0 <= ns < 2^32·10^9. For negative time stamps the code produces wrapped `u32` values (negative microseconds wrap to large numbers), which the model computes but states nothing about.
- `Export.ExportPcap`: its read-back clause holds only when every cached frame is shorter than 2^32 bytes. Longer frames would get truncated lengths from `as u32`, and a reader could not recover them.
- `Commands.ExportCountMatchesFile`: requires every cached frame to be shorter than 2^32 bytes, for the same reason.
