# net-observer: a verified model of its algorithmic and concurrent core

net-observer watches a network segment from one machine: passive collectors fold captured frames and API
answers into samples, a prober looks for captive portals, and a menu-bar program draws what was recorded. This
project models the parts of it where a mistake would hide, and proves what they promise.

| file | models |
|---|---|
| `Pcap.dfy` | the streaming reader of classic capture files, its printer, and every prefix of a file |
| `AnnounceSource.dfy` | the passive listener: a reader thread, a bounded channel, windows, one closing bracket |
| `Frames.dfy` | what captured frames say of the devices on the segment, under the guards |
| `Tables.dfy` | the capped tables of a flush window: what a saying does to them, and exactly when nothing is refused |
| `Window.dfy` | one flush window, from its frames to its rows |
| `Dhcp.dfy`, `Mdns.dfy` | the decoders the window reads frames with |
| `Listening.dfy` | the listener from end to end: flushes of the source, read by the decoders, as rows |
| `OwnFrames.dfy` | counting this machine's own frames in a frozen capture slice |
| `Shutdown.dfy` | the cancellation cell between a window and its subscription thread, over all interleavings |
| `EventBridge.dfy` | the lossy bounded bridge with its drop counter, and the event log behind it |
| `ScanButton.dfy` | the scan button of the air window and the deadline that ends its busy states |
| `Portal.dfy` | the captive-portal prober and its scheduler, under a pause flag and a tier that change mid-probe |
| `Connections.dfy` | the in-place group-by of live connections, with saturating sums |
| `Channels.dfy`, `AirMap.dfy` | where radios sit, how much they overlap, and one scan as ranked sections |
| `AxisTicks.dfy`, `PackRows.dfy` | which channel numbers are printed, and which row each bar is drawn in |
| `StarMap.dfy` | who is drawn on the segment map, and how large its ring must be |
| `ConnectionsWindow.dfy` | byte figures, and the flows a filter hides |
| `Prelude.dfy`, `StableSort.dfy` | shared vocabulary; the stable sort the program relies on |

Code that works step by step is a class or a method with loops, proved against a specification; what the program
promises is then proved of the specification. Everything outside the model is a parameter: the clock, the shared
flags another thread writes, the outcome of a read or a send, the parsers of libraries. A run takes them in any
combination, so a theorem about runs is one about every interleaving.

The small functions the large results are stated with (a stamp, a verdict, a rank, an order, a preferred address, a
reverse name) each have a lemma that says what they mean without them, over all inputs.

Three results carry most of the weight. `PackRows.PackRows` is optimal: no valid assignment of bars to rows uses
fewer rows, because each time a row opens a crowd of mutually crossing bars, one for each row, is exhibited.
`AnnounceSource.AnnounceSource.Next` loses, repeats and reorders nothing between the thread and the flushes,
whatever the two do between each other's steps. `Shutdown.ThreadReturns` bounds the steps a thread takes after its
window has closed.

## Where the code is narrower than its comments

The model follows the code; each point is a lemma, with the exact condition where the code falls short.

- A capture that ends inside a record *header* ends cleanly; an unexpected end is one in the global header or in a
  body (`Pcap.HeaderCut`, `Pcap.SavefileCut`, against `pcap.rs:70-72`). For the same reason a slice of the ring that
  ends inside a record header is counted without being marked truncated (`OwnFrames.TruncatedExactly`, against
  `own_frames.rs:32-36`).
- The round trip of a capture file holds if and only if no body is longer than the reader accepts
  (`Pcap.RoundTrip`).
- The note that says how many messages were dropped comes before the next accepted message unless the foreground
  makes room between the two sends of one call (`EventBridge.Bridge.BridgeSend`, with a run in which it does in
  `EventBridge.AheadOfItsNote`, against `events.rs:734-736`).
- Closing a window ends its thread except when no handle could be had for the socket: then the thread can stay
  parked in its read (`Shutdown.StuckOnlyWithoutHandle`, `Shutdown.HandlelessThreadParks`).
- A probe is dropped if the flags differ at its two ends, not whenever a pause or a tier switch fell into it
  (`Portal.SteadyIsDelivered`, `Portal.DisturbedYetDelivered`, against `portal.rs:89-93`).
- A pause does not let the series advance: it spends nothing of it, however long it lasts
  (`Portal.PauseSpendsNothing`, against `portal.rs:26-29`).
- A repeated DHCP option counts last, and an unreadable later one erases a readable earlier one
  (`Dhcp.HostnameDecided`, `Dhcp.UnreadableErases`).
- A radio is placed over the slot of its own channel exactly as `Channels.OverItsSlot` says: with a width of `slots`
  whole slots, when its number lies at most `4 * slots - 4` into its block. At 20 MHz that is the grid of four, which the
  channels from 149 up are off; wider blocks hold some numbers off the grid too (`Channels.PrimaryInItsBlock`,
  `Channels.WholeSlots`, `Channels.UpperChannelsMisplaced`, `Channels.OffTheGridYetOver`, against
  `types/src/air.rs:493-495`).
- The gateway's row takes addresses from DHCP messages about a client with its MAC, and from ARP in frames of others,
  not from its own ARP requests alone (`Frames.GatewayPairings` for exactly which frames,
  `Listening.RequestReachesGateway` for one that does, against `window.rs:24-26`). Its service rows have no guard at
  all: a forwarded announcement names its foreign source there (`Frames.ServiceSources`).

## Model

| member | source | states |
|---|---|---|
| Pcap.ByteReader.ReadExact | crates/collector-announce/src/pcap.rs:82-101 | a read yields exactly the bytes asked for or spends the stream and reports how it ended |
| Pcap.PcapStream.ReadGlobalHeader | crates/collector-announce/src/pcap.rs:111-115 | the header read, the bytes it takes and the error of a short or foreign one |
| Pcap.PcapStream.ReadRecord | crates/collector-announce/src/pcap.rs:82-108 | one record, a clean end, an oversize claim or a cut body, and where each leaves the stream |
| Pcap.PcapStream.NextRecord | crates/collector-announce/src/pcap.rs:73-109 | one call as a step of the cursor: the header once, then record by record |
| Pcap.HeaderRoundTrip | crates/collector-announce/src/pcap.rs:136-163 | each of the four magics is recognised as the byte order and resolution it was written with |
| Pcap.WordSpells | crates/collector-announce/src/pcap.rs:79-91 | a word is the number its bytes spell, read backwards in a little-endian file |
| Pcap.MagicTellsLayout | crates/collector-announce/src/pcap.rs:136-163 | a header is accepted in exactly the layout in which its first word is 0xa1b2c3d4 (microseconds) or 0xa1b23c4d (nanoseconds) |
| Pcap.RecordMeans | crates/collector-announce/src/pcap.rs:82-108 | of any bytes: a record has the length its header claims, the data behind it, and the microsecond its seconds and fraction fall in |
| Pcap.RecordRoundTrip | crates/collector-announce/src/pcap.rs:82-108 | a written record is read back whole, stamped with the microsecond its time falls in, and leaves exactly what follows it |
| Pcap.RoundTrip | crates/collector-announce/src/pcap.rs:172-196 | reading a written file gives back its packets and a clean end, if and only if every body fits |
| Pcap.PacketsComeBack | crates/collector-announce/src/pcap.rs:82-108 | of each packet of a file come back its very bytes and the microsecond its time falls in |
| Pcap.OversizeIsLost | crates/collector-announce/src/pcap.rs:94-99 | a file with a body over the limit is never read back as written |
| Pcap.SavefileCut | crates/collector-announce/src/pcap.rs:68-109 | a file cut behind its header yields exactly the records wholly inside the cut, and where the cut falls decides how it ends |
| Pcap.HeaderCut | crates/collector-announce/src/pcap.rs:111-115 | a file cut inside its global header is an unexpected end with no record |
| Pcap.EveryCutFalls | crates/collector-announce/src/pcap.rs:68-109 | every cut position falls behind exactly one packet |
| Pcap.PrefixReadsPrefix | crates/collector-announce/src/pcap.rs:73-109 | of any bytes at all, a prefix reads as a prefix of the records |
| AnnounceSource.Capture.ReadStep | crates/collector-announce/src/source.rs:129-146 | the thread's read keeps what is still to come, also when it dies in it |
| AnnounceSource.Capture.SendStep | crates/collector-announce/src/source.rs:133-145 | a send moves the message in hand behind the queue, or blocks at its capacity |
| AnnounceSource.Capture.ThreadRuns | crates/collector-announce/src/source.rs:129-148 | any number of thread steps loses, repeats and reorders nothing |
| AnnounceSource.Capture.Recv | crates/collector-announce/src/source.rs:203-213 | a receive takes the next message to come; a timeout means the thread still works, a disconnect that it is gone and either died or has nothing left |
| AnnounceSource.HeadIsNext | crates/collector-announce/src/source.rs:198-215 | the next message is the next record, and the end comes only once all have been heard |
| AnnounceSource.BatchFollows | crates/collector-announce/src/source.rs:217-254 | a batch flushes exactly its window and keeps the run's shape: single flushes, then one closing bracket |
| AnnounceSource.AnnounceSource.constructor | crates/collector-announce/src/source.rs:99-108 | a fresh source has everything of its stream still to flush |
| AnnounceSource.AnnounceSource.StartFeed | crates/collector-announce/src/source.rs:111-125 | the thread is started once, over the whole stream |
| AnnounceSource.AnnounceSource.Drain | crates/collector-announce/src/source.rs:195-215 | what the window absorbed extends what was flushed as a prefix of the stream, for every interleaving; it stops early only with nothing to receive, and reports the thread gone only when it died |
| AnnounceSource.AnnounceSource.Serve | crates/collector-announce/src/source.rs:193-254 | one window from its opening to its batch: nothing lost, stamped, and closing exactly with the stream or the thread |
| AnnounceSource.AnnounceSource.Next | crates/collector-announce/src/source.rs:177-255 | every batch is stamped with one identity, nothing is lost, a window that stays open was served until there was nothing to receive, the closing reason is the true one, and after the bracket there is nothing |
| AnnounceSource.CaptureToFlushes | crates/collector-announce/src/source.rs:129-255 | a source closed by its stream's end has flushed exactly the packets wholly inside the cut of the capture it read |
| AnnounceSource.RunToEnd | crates/collector-announce/src/source.rs:195-255 | progress: given its steps and no panic, the source closes with the stream's own end and everything flushed |
| Frames.NumberSpells | crates/collector-announce/src/frame.rs:44-50 | a number stands for exactly the octets that spell it |
| Frames.NumberInjective | crates/collector-announce/src/frame.rs:44-50 | addresses are told apart by the numbers that stand for them |
| Frames.UnicastMeans | crates/collector-announce/src/frame.rs:44-50 | in octets: a MAC can name a device unless its first octet has the group bit or it is all ones or all zeros |
| Frames.AddressableV4 | crates/collector-announce/src/window.rs:452-459 | an IPv4 source can unless unspecified, multicast, broadcast or loopback, octet by octet |
| Frames.AddressableV6 | crates/collector-announce/src/window.rs:460 | an IPv6 source can unless unspecified, multicast or loopback |
| Frames.OwnIsNeverSaid | crates/collector-announce/src/window.rs:147-166 | no frame makes our own MAC a neighbour, whoever sends it |
| Frames.Pairings | crates/collector-announce/src/window.rs:13-26 | exactly which frames pair which address with which device |
| Frames.GatewayPairings | crates/collector-announce/src/window.rs:19-26 | exactly which frames pair an address with the gateway's MAC |
| Frames.Namings | crates/collector-announce/src/window.rs:331-396 | exactly which frames give a device which name, and which leave a name waiting for its address |
| Frames.Offerings | crates/collector-announce/src/window.rs:331-401 | exactly what is offered for whom, under which service name, kind and detail, and from where |
| Frames.ProxiedIsCounted | crates/collector-announce/src/window.rs:340-343 | the services an mDNS message of somebody else announces for others are refused, and nothing else is |
| Frames.ServiceSources | crates/collector-announce/src/window.rs:331-412 | exactly which frames put an address on a service of a device, the gateway's included |
| Tables.AfterKeeps | crates/collector-announce/src/window.rs:281-329 | no saying erases or reorders an address, replaces a name, changes a service or takes back a refusal |
| Tables.AfterRecords | crates/collector-announce/src/window.rs:268-329 | what was not refused is recorded |
| Tables.AfterFits | crates/collector-announce/src/window.rs:27-38 | every saying leaves the tables within the caps, holding nothing unsaid, and all that was said unless something was refused |
| Tables.RefusedUnlessRoom | crates/collector-announce/src/window.rs:32-38 | taking in any sayings, nothing is refused exactly when the devices, addresses, services and sources spoken of are within the caps and no moment has too many names waiting |
| Window.Preferred | crates/collector-announce/src/window.rs:440-450 | the first seen of the best rank: routable before link-local, IPv4 before IPv6 |
| Window.PreferredMeans | crates/collector-announce/src/window.rs:40-44 | the row's address is the first IPv4 outside 169.254/16, else the first IPv6 outside fe80::/10, else the first link-local IPv4, else the first of all |
| Window.Window.Slot | crates/collector-announce/src/window.rs:268-279 | a device slot is found, opened, or refused and counted once; nothing else changes |
| Window.Window.Sight | crates/collector-announce/src/window.rs:281-289 | an address is appended once, or refused and counted once |
| Window.Window.Name | crates/collector-announce/src/window.rs:291-296 | the first name learned stays; only a missing slot is counted |
| Window.Window.Announce | crates/collector-announce/src/window.rs:298-329 | a service is listed and counted on its device, a repeat adds an address; each cap met is counted once |
| Window.Window.RememberName | crates/collector-announce/src/window.rs:414-424 | a client's first name without an address is held, or counted once when too many are |
| Window.Window.TakeName | crates/collector-announce/src/window.rs:401-409 | an acknowledgement removes the held name and gives it out |
| Window.Window.Hear | crates/collector-announce/src/window.rs:268-424 | taking in one saying keeps the window valid and changes it, the refusal count included, exactly as the tables say |
| Window.Window.Absorb | crates/collector-announce/src/window.rs:140-190 | a frame adds exactly its sayings and exactly their refusals with those of services for others, or is counted as ours or undecoded |
| Window.Window.Flush | crates/collector-announce/src/window.rs:221-262 | a row for each device with an address, never ours, carrying an address somebody spoke of |
| Window.ExactUnlessRefused | crates/collector-announce/src/window.rs:32-38 | with no refusal counted, a device's addresses are exactly those spoken of |
| Window.ServicesExactUnlessRefused | crates/collector-announce/src/window.rs:32-38 | with no refusal counted, the services are exactly those announced |
| Window.SaidIsPaired | crates/collector-announce/src/window.rs:140-190 | an address was spoken of exactly when some frame of the window pairs it |
| Window.RefusedOverFrames | crates/collector-announce/src/window.rs:32-38 | over a window nothing is refused exactly if its frames leave room and announce nothing for others; if they leave room, just the latter is |
| Window.Reading | crates/collector-announce/src/window.rs:1-38 | a window from its frames to its rows: every row has its frame; with a zero refusal count every paired device has its row; and exactly when that count is zero |
| Dhcp.ApplyNext | crates/collector-announce/src/dhcp.rs:123-133 | reading one more option is the last-wins fold over one more option |
| Dhcp.Decode | crates/collector-announce/src/dhcp.rs:72-137 | the payload is refused, or its header and the last option of each kind are the message |
| Dhcp.ReadOptions | crates/collector-announce/src/dhcp.rs:105-135 | the index walk stays in bounds, advances, and folds exactly the options inside the buffer |
| Dhcp.OptionsRoundTrip | crates/collector-announce/src/dhcp.rs:105-135 | options written with any pads and followed by anything after the end mark are read back |
| Dhcp.OptionsCut | crates/collector-announce/src/dhcp.rs:117-122 | a cut anywhere in the options yields exactly those wholly inside it |
| Dhcp.MessageRoundTrip | crates/collector-announce/src/dhcp.rs:154-177 | a written message decodes to its fields |
| Dhcp.MessageCut | crates/collector-announce/src/dhcp.rs:66-70 | a message cut behind its header keeps what was read before the cut |
| Dhcp.LastOfIsLast | crates/collector-announce/src/dhcp.rs:123-133 | the last of several options of one kind decides a field, and none does without one |
| Dhcp.HostnameDecided | crates/collector-announce/src/dhcp.rs:125 | the host name is that of the last option 12, or absent |
| Dhcp.VendorDecided | crates/collector-announce/src/dhcp.rs:126 | the vendor class is that of the last option 60, or absent |
| Dhcp.TypeDecided | crates/collector-announce/src/dhcp.rs:124 | the message type is the first byte of the last option 53 |
| Dhcp.ServerDecided | crates/collector-announce/src/dhcp.rs:127-131 | the server is that of the last option 54 of four bytes, or absent |
| Dhcp.TypesByNumber | crates/collector-announce/src/dhcp.rs:29-41 | the eight message types by their numbers, and no other number is one |
| Dhcp.FieldsStandThere | crates/collector-announce/src/dhcp.rs:72-104 | exactly which payloads are messages, and where in them the fixed fields stand |
| Dhcp.UnreadableErases | crates/collector-announce/src/dhcp.rs:123-133 | a later unreadable option erases its field, except a server identifier of a wrong length |
| Mdns.ReverseNameDetermines | crates/collector-announce/src/mdns.rs:171-196 | a reverse-lookup name, in any case, spells one address and no other, across both families |
| Mdns.ReverseNameIsExact | crates/collector-announce/src/mdns.rs:171-196 | the reverse name of an address is that of no other |
| Mdns.ReverseOfV4 | crates/collector-announce/src/mdns.rs:173-181 | a name is the reverse of an IPv4 address exactly if its labels are the numerals of the octets from last to first, then in-addr and arpa in any case |
| Mdns.ReverseOfV6 | crates/collector-announce/src/mdns.rs:182-190 | of an IPv6 address exactly if they are the nibbles of its octets from last to first, the low one first, then ip6 and arpa |
| Mdns.ReverseIsNoService | crates/collector-announce/src/mdns.rs:150-168 | the cases of a pointer record do not overlap: a reverse name is no service and no meta query |
| Mdns.TypeIsNameWithoutDomain | crates/collector-announce/src/mdns.rs:209-220 | a service type is the name without its domain |
| Mdns.TypesExactly | crates/collector-announce/src/mdns.rs:209-220 | a name is a type exactly if it ends in a transport under local and begins with an underscore |
| Mdns.InstancesExactly | crates/collector-announce/src/mdns.rs:222-229 | a name is an instance exactly if it is a type with one more label, without an underscore, before it |
| Mdns.SplitIsWhole | crates/collector-announce/src/mdns.rs:222-229 | an instance, its type and the domain are the name they were split from, which is no type itself |
| Mdns.CollectAddresses | crates/collector-announce/src/mdns.rs:73-85 | the index holds exactly the addresses the message ties to each name |
| Mdns.CollectProxied | crates/collector-announce/src/mdns.rs:86-102 | exactly the instances whose SRV target is tied only to other addresses |
| Mdns.Decode | crates/collector-announce/src/mdns.rs:64-119 | the three passes compute the facts of the message |
| Mdns.ServicesAreTheSenders | crates/collector-announce/src/mdns.rs:140-168 | a service is the sender's exactly when some record describes it that is not on another host's behalf |
| Mdns.EveryServiceRecordCounted | crates/collector-announce/src/mdns.rs:48-53 | services kept and records refused are together all service records, before neighbours are merged |
| Mdns.DedupMembers | crates/collector-announce/src/mdns.rs:117 | merging neighbours loses no service and leaves no equal neighbours |
| Mdns.HostnamesByRank | crates/collector-announce/src/mdns.rs:110-116 | the names are those of address records, then those of pointers, each in record order at its first occurrence |
| Mdns.HostnamesAreTied | crates/collector-announce/src/mdns.rs:39-43 | the names are exactly those tied to the source, without repeats, address records first |
| Listening.PairsItsClient | crates/collector-announce/src/window.rs:401-409 | DHCP pairs an address only with the very client of the message |
| Listening.RequestReachesGateway | crates/collector-announce/src/window.rs:364-376 | a request from a third MAC about the gateway's puts any address on the gateway |
| Listening.FirstHostname | crates/collector-announce/src/window.rs:335-337 | the one name taken from a message is tied to its sender by an address record, or by a pointer if none is |
| Listening.NamesAreTied | crates/collector-announce/src/window.rs:27-29 | a row's name is one its own device announced by mDNS for its own address, or sent as its own by DHCP |
| Listening.TiedToSender | crates/collector-announce/src/mdns.rs:39-43 | that address is the very one the frame was sent from |
| Listening.FlushIsHeard | crates/collector-announce/src/source.rs:217-248 | the frames of a flush are frames of the run |
| Listening.RowsOf | crates/collector-announce/src/source.rs:221-248 | every row of a flush is a device some frame of the capture paired with the row's address |
| OwnFrames.Tally | crates/collector-announce/src/own_frames.rs:55-85 | one record updates the counters as absorbing the counts of that record alone |
| OwnFrames.CountOwnFrames | crates/collector-announce/src/own_frames.rs:37-88 | the counts are those of the records read, truncation is said, and any other failure is an error |
| OwnFrames.AbsorbCounts | crates/types/src/experiment.rs:188-201 | two slices counted apart and absorbed count as one |
| OwnFrames.CountsDetermined | crates/types/src/experiment.rs:148-179 | what a count says is determined by its records |
| OwnFrames.CountsAreConsistent | crates/types/src/experiment.rs:148-187 | own frames are within the window's, the window's within all, and the stamps present exactly when counted |
| OwnFrames.OrderIrrelevant | crates/collector-announce/src/own_frames.rs:45-86 | the order of the records is irrelevant |
| OwnFrames.AdjacentWindowsAdd | crates/collector-announce/src/own_frames.rs:61-64 | the counts of a window cut in two add up |
| OwnFrames.TruncatedExactly | crates/collector-announce/src/own_frames.rs:32-55 | of a capture file cut anywhere, exactly the cuts in the global header or in a body are marked truncated |
| OwnFrames.ShortCopyNeverCountsMore | crates/collector-announce/src/own_frames.rs:32-36 | a slice copied short never counts more than the whole, whatever the bytes |
| Shutdown.StepKeepsInv | bin/net-observer-bar/src/events.rs:118-158 | every step of either thread or the peer keeps the invariant of the cell |
| Shutdown.PeerOnlySends | crates/net-observer-ipc/src/lib.rs:1544-1560 | the peer changes nothing but what the socket being read holds and whether it still stands |
| Shutdown.RunKeepsInv | bin/net-observer-bar/src/events.rs:667-729 | the invariant holds in every state of every run |
| Shutdown.TrippedClosesTheSocket | bin/net-observer-bar/src/events.rs:119-125 | after trip the cell stays empty and the socket being read is closed, if and only if there was a handle |
| Shutdown.StepsRunOut | bin/net-observer-bar/src/air.rs:2306-2369 | after trip every step is the thread's, of either loop, and leaves it fewer |
| Shutdown.ThreadReturns | bin/net-observer-bar/src/events.rs:101-109 | after trip only the thread still steps, at most five times and twice for each buffered frame, and one not reading never starts another read |
| Shutdown.StuckOnlyWithoutHandle | bin/net-observer-bar/src/events.rs:132-146 | the one way to be stuck after trip: a silent socket without a handle |
| Shutdown.LateArmIsRefused | bin/net-observer-bar/src/air.rs:269-282 | a socket offered after trip is closed there and the thread returns |
| Shutdown.HandlelessThreadParks | bin/net-observer-bar/src/events.rs:135-146 | a run in which that way is taken |
| EventBridge.Bridge.TrySend | bin/net-observer-bar/src/events.rs:555-556 | the channel takes a message, is full at its capacity, or has lost its receiver |
| EventBridge.Bridge.Report | bin/net-observer-bar/src/events.rs:738-745 | losses are reported by one note that resets the counter, if it fits |
| EventBridge.Bridge.Offer | bin/net-observer-bar/src/events.rs:746-753 | the message gets through or is counted |
| EventBridge.Bridge.BridgeSend | bin/net-observer-bar/src/events.rs:731-754 | the books balance and what the foreground took in between has left the bridge; a note goes right before its message, and exactly when a message precedes the note for earlier losses |
| EventBridge.AheadOfItsNote | bin/net-observer-bar/src/events.rs:734-736 | a run in which a message gets through while an earlier loss is still untold |
| EventBridge.Conservation | bin/net-observer-bar/src/events.rs:731-754 | offered = got through + counted by notes + still counted |
| EventBridge.KeptAndLost | bin/net-observer-bar/src/events.rs:746-753 | what got through is a selection of what was offered, the rest is what was lost |
| EventBridge.EventLog.Apply | bin/net-observer-bar/src/events.rs:228-246 | the log holds exactly the last thousand frames and the last word on the stream |
| EventBridge.Drain | bin/net-observer-bar/src/events.rs:571-600 | a tick moves everything accepted into the log, in order |
| EventBridge.RunBridge | bin/net-observer-bar/src/events.rs:571-600 | over any interleaving of sends and ticks every message sent while the window is open is offered, what the log was given and the running tick still holds is what left the bridge, in order, and the log keeps the last thousand frames of it |
| ScanButton.AirFeed.SetScan | bin/net-observer-bar/src/air.rs:323-331 | a busy state is written with the deadline that ends it |
| ScanButton.AirFeed.ExpireScan | bin/net-observer-bar/src/air.rs:333-346 | a tick gives up exactly at or past the deadline |
| ScanButton.AirFeed.Apply | bin/net-observer-bar/src/air.rs:348-398 | each message's effect on each field of the feed |
| ScanButton.AirFeed.HandleAll | bin/net-observer-bar/src/air.rs:2242-2249 | a feed driven through a run ends where the theorems about runs say |
| ScanButton.DeadlineWhileBusy | bin/net-observer-bar/src/air.rs:317-319 | in every run a deadline stands exactly while busy, sixty seconds from the last busy write |
| ScanButton.TickSettles | bin/net-observer-bar/src/air.rs:333-346 | after a tick a busy state's deadline is still ahead, and a settled state was not touched |
| ScanButton.BusyEnds | bin/net-observer-bar/src/air.rs:2247-2249 | ticks alone end a busy state exactly when one falls at or past its deadline |
| ScanButton.NoteIsLatest | bin/net-observer-bar/src/air.rs:303-304 | the note over the picture is what the last event about the link said |
| ScanButton.SliceSettles | bin/net-observer-bar/src/air.rs:348-398 | a slice settles a busy button, a press makes it busy for sixty seconds, and no other message but one about the scan touches it |
| ScanButton.FactsAreLatest | bin/net-observer-bar/src/air.rs:348-398 | slice, own radio, pause and support are each the one last told |
| ScanButton.NoteMeans | bin/net-observer-bar/src/air.rs:348-398 | an offline message leaves its reason as the note, and any readable frame that is no error takes it away |
| Portal.Scheduler.OnTrigger | crates/collector-portal/src/schedule.rs:55-68 | a trigger restarts the series at its first pause |
| Portal.Scheduler.OnAttemptDone | crates/collector-portal/src/schedule.rs:79-113 | the next phase and the pause it is entered with |
| Portal.Prober.OnRoute | bin/net-observerd/src/portal.rs:51-59 | a route event arms, is ignored or ends the loop |
| Portal.Prober.OnTimer | bin/net-observerd/src/portal.rs:60-109 | a due attempt is deferred, delivered or undelivered, and the dead branch is dead |
| Portal.Prober.Run | bin/net-observerd/src/portal.rs:30-113 | over every run the loop's variables are what its log says |
| Portal.DueWhileScheduled | bin/net-observerd/src/portal.rs:38-49 | a deadline stands exactly while a probe is scheduled, so an armed series is never lost |
| Portal.SamplesAreSteady | bin/net-observerd/src/portal.rs:77-105 | a delivered sample saw observation on and one tier at both ends; on the active tier it says clean or a portal exactly if the answer read so, with its login page, and else why there is no reading; on the passive tier nothing was sent |
| Portal.FreshAddressArms | crates/collector-portal/src/lib.rs:43-56 | a series is armed by a fresh address on an en interface and by nothing else |
| Portal.SteadyIsDelivered | bin/net-observerd/src/portal.rs:65-109 | a due attempt is delivered exactly when its ends agree and the sample has a reader, and otherwise spends nothing |
| Portal.DisturbedYetDelivered | bin/net-observerd/src/portal.rs:89-101 | a pause inside one probe goes unseen |
| Portal.PauseSpendsNothing | bin/net-observerd/src/portal.rs:65-72 | any number of attempts due during a pause leaves the phase, the samples and the wire as they were |
| Portal.AttemptsArePaced | bin/net-observerd/src/portal.rs:41-49 | no attempt begins before the pause left by its predecessor, and that is at least three seconds |
| Portal.SeriesSchedule | crates/collector-portal/src/schedule.rs:9-18 | after a trigger attempts without a reading come 3, 10, 30 and 60 s apart, and then none |
| Portal.WatchSchedule | crates/collector-portal/src/schedule.rs:20-30 | after a portal they come every 60 s on the same interface until ten in a row had no reading |
| Portal.CleanEnds | crates/collector-portal/src/schedule.rs:83-84 | a clean answer ends the series or the watch |
| Portal.SeriesAreBounded | crates/collector-portal/src/schedule.rs:91-110 | a stretch without triggers and portals delivers at most what its phase allows, exactly so if all were SKIPs |
| Portal.PassiveSeries | bin/net-observerd/src/portal.rs:25-29 | on the passive tier a trigger is good for four SKIPs and no packet |
| Connections.FindRow | crates/collector-connections/src/sample.rs:41 | the first row with the flow's key, or none |
| Connections.BuildConnectionsSample | crates/collector-connections/src/sample.rs:25-67 | the in-place fold is the group-by of the flows; no answer is a SKIP |
| Connections.KeysDistinct | crates/collector-connections/src/sample.rs:41-60 | row keys are pairwise distinct and are exactly the flows' keys |
| Connections.GroupByNext | crates/collector-connections/src/sample.rs:38-60 | one more flow grows its row in place or opens one at the end |
| Connections.ScopeSplitsNoKey | crates/collector-connections/src/sample.rs:20-24 | comparing the scope too changes no match |
| Connections.RowSaysWhere | crates/collector-connections/src/facts.rs:77-89 | a row's interface is none without a chain, blocked by a blocking tag, the direct one by a direct tag and the tunnel's by any other; its scope is that of the destination |
| Connections.FoldMerges | crates/collector-connections/src/sample.rs:38-60 | folding two halves and merging is folding the whole, saturation included |
| Connections.FoldPermutes | crates/collector-connections/src/sample.rs:38-60 | permuting the flows permutes the rows only |
| Channels.NewSpan | crates/types/src/air.rs:353-372 | a span needs a channel and a band and always has a positive width |
| Channels.BestIsBest | crates/types/src/air.rs:534-545 | the overlap is the largest over all placements of both radios |
| Channels.OverlapIsShared | crates/types/src/air.rs:443-453 | the overlap is the part of the narrower channel two placements have in common, cell by cell, and no two placements have more |
| Channels.ConfidenceMeans | crates/types/src/air.rs:518-553 | confidence is low exactly with an assumed width or an uncertain place, and above that high exactly with a reading |
| Channels.OverlapIsMutual | crates/types/src/air.rs:443-446 | the overlap is a fraction and the same from either side |
| Channels.ExtentIsTheUnion | crates/types/src/air.rs:396-416 | the drawn extent covers a stretch exactly where some placement does |
| Channels.OverlapIsDrawn | crates/types/src/air.rs:375-380 | an overlap is claimed exactly where the drawn bands cross |
| Channels.ConfidentIsPlaced | crates/types/src/air.rs:518-553 | above the lowest confidence both widths were reported and both placements are single |
| Channels.PrimaryInItsBlock | crates/types/src/air.rs:475-508 | for every width and channel, exactly when a radio is drawn over the slot of its own number |
| Channels.WholeSlots | crates/types/src/air.rs:493-507 | for a width of whole slots: when the number lies at most all but a slot into its block |
| Channels.OffTheGridYetOver | crates/types/src/air.rs:493-507 | 149 and 37 at 80 MHz are off the grid of four and over their slots |
| Channels.UpperChannelsMisplaced | crates/types/src/air.rs:493-507 | channel 149 is placed over the slot of 148 |
| AirMap.AddToBand | bin/net-observer-bar/src/air.rs:492-519 | an access point joins its band's one group, or opens it |
| AirMap.Group | bin/net-observer-bar/src/air.rs:475-537 | one section for each band we are on or heard, lowest first, each ranked and cut |
| AirMap.RankAndCut | bin/net-observer-bar/src/air.rs:520-534 | every group is sorted by the ranking and cut to what a section shows |
| AirMap.RankingIsTotal | bin/net-observer-bar/src/air.rs:477-480 | inside a band all overlaps are computed or none, so the mixed comparator is a total preorder there |
| AirMap.OverlapThenLoudness | crates/types/src/air.rs:454-465 | more overlap ranks first, among equal overlaps the louder, a lane without a reading last |
| AirMap.MixedRankingCycles | bin/net-observer-bar/src/air.rs:521-529 | across bands it would not be transitive |
| AirMap.KeptRankHighest | bin/net-observer-bar/src/air.rs:520-534 | kept and dropped lanes are the band's, sorted, and no kept one ranks below a dropped one |
| AirMap.SectionInOrder | bin/net-observer-bar/src/air.rs:520-534 | on our band more overlap stands first and the louder among equals, elsewhere the louder and lanes without a reading last; none dropped belongs before one kept |
| AirMap.LanesReport | bin/net-observer-bar/src/air.rs:492-519 | every lane of a section says what was reported of an access point of its band |
| AirMap.LowestBandFirst | bin/net-observer-bar/src/air.rs:535-537 | the sections stand from 2.4 GHz up |
| AirMap.EveryPlaceableCounted | bin/net-observer-bar/src/air.rs:492-534 | every access point that can be placed is shown or counted once |
| AirMap.OwnMarkedOnce | bin/net-observer-bar/src/air.rs:483-518 | our channel is marked on exactly one section, and every other says where we are |
| AirMap.SectionsAreOne | bin/net-observer-bar/src/air.rs:475-537 | a scan has one list of sections only |
| AirMap.RingMarksOf | bin/net-observer-bar/src/air.rs:1193-1215 | the marks are exactly the lanes shown, split by whether a signal was reported |
| AxisTicks.ChannelsExactly | bin/net-observer-bar/src/air.rs:583-597 | the numbers of a band: 1 to 14; by fours 36 to 64, 100 to 144 and 149 to 165; by fours 1 to 233 |
| AxisTicks.AxisTicks | bin/net-observer-bar/src/air.rs:635-665 | a number is printed exactly if it is ours or has room beside those printed before it |
| AxisTicks.LabelsSeparatedAndMaximal | bin/net-observer-bar/src/air.rs:629-634 | printed numbers stand 24 px apart or more, and every other tick is closer to one |
| AxisTicks.NoChoicePrintsMore | bin/net-observer-bar/src/air.rs:629-634 | no choice that keeps apart and keeps ours prints more numbers |
| AxisTicks.TicksAscend | bin/net-observer-bar/src/air.rs:585-618 | the ticks of a band stand left to right in channel order |
| AxisTicks.OwnAlwaysPrinted | bin/net-observer-bar/src/air.rs:545-578 | our channel number, if the band has it, is on the axis of our section and printed |
| AxisTicks.AxisIfPlaced | bin/net-observer-bar/src/air.rs:545-563 | a section has an axis exactly if any of its radios can be placed |
| AxisTicks.AxisMeans | bin/net-observer-bar/src/air.rs:564-578 | the axis goes to the outermost ends of its radios, in 2.4 GHz over the whole band, and a pad of 8 %, at least 10 MHz, beyond |
| AxisTicks.BarsStandOnTheAxis | bin/net-observer-bar/src/air.rs:545-578 | every bar a section draws on its own axis is to scale and clear of both ends, so no clamp and no least width moves it over the edge |
| StableSort.SortSorts | bin/net-observer-bar/src/air.rs:521-535 | the sort returns the same elements in order, given a preorder on just those |
| StableSort.SortStable | crates/collector-announce/src/mdns.rs:110-111 | equal elements keep their order |
| PackRows.FirstFree | bin/net-observer-bar/src/air.rs:686-689 | the first row with room, or a new one |
| PackRows.SeatingOrder | bin/net-observer-bar/src/air.rs:675-681 | the bars left to right, each once |
| PackRows.CrowdNeedsRows | bin/net-observer-bar/src/air.rs:667-673 | mutually crossing bars need a row each in any valid assignment |
| PackRows.NoRoomMakesCrowd | bin/net-observer-bar/src/air.rs:684-692 | a bar with no room crosses the furthest-reaching bar of every row, and those cross each other |
| PackRows.PackRows | bin/net-observer-bar/src/air.rs:674-697 | bars sharing a row keep apart, rows are numbered without holes, and no assignment uses fewer |
| PackRows.Place | bin/net-observer-bar/src/air.rs:699-715 | on any axis a bar starts on it, is never narrower than can be seen, and passes its end exactly when it starts within the last such width |
| PackRows.PlacedOnTheAxis | bin/net-observer-bar/src/air.rs:699-715 | a bar is the part of its span that lies on the axis, to scale, beginning or ending at the axis's end where the span goes beyond |
| StarMap.AnnouncedOverlay | bin/net-observer-bar/src/map.rs:367-390 | exactly the announced devices still present that the reading does not carry |
| StarMap.HeardLately | bin/net-observer-bar/src/map.rs:292-299 | a device is in the overlay exactly if it was heard at most ten minutes ago and the reading does not carry it |
| StarMap.Partition | bin/net-observer-bar/src/map.rs:452-501 | gateway, ring and dropped are all the devices; the gateway is the first with the key, the ring a prefix of the rest |
| StarMap.ReadingOutranks | bin/net-observer-bar/src/map.rs:461-469 | an announced device is the gateway only when no scanned one carries the key |
| Prelude.CaseOnly | bin/net-observer-bar/src/map.rs:386-386 | MACs and names compared without case differ at most by a capital for its small letter |
| StarMap.ScannedSeatedFirst | bin/net-observer-bar/src/map.rs:461-464 | no scanned device loses its seat to an announced one |
| StarMap.NoTwoChipsForOneMac | bin/net-observer-bar/src/map.rs:367-373 | with the overlay no two devices drawn share a MAC, whatever its case, if the reading and the record name each once |
| StarMap.DrawnAsListed | bin/net-observer-bar/src/map.rs:206-236 | a device is drawn with the MAC, chip and address of its row, marked if only announced |
| StarMap.RingClearsCentre | bin/net-observer-bar/src/map.rs:116-130 | at any window size and any angle a neighbour clears the gateway |
| StarMap.FloorIsTight | bin/net-observer-bar/src/map.rs:122-130 | on any smaller ring some angle does not |
| StarMap.ChipsInsideTheBox | bin/net-observer-bar/src/map.rs:153-166 | at every angle the ring's chips stay inside the box exactly when the box has room for the floor |
| StarMap.RingIsLargest | bin/net-observer-bar/src/map.rs:153-166 | on any larger ring some chip leaves the box |
| StarMap.BoxIsTheWindow | bin/net-observer-bar/src/map.rs:161-164 | the box is the window's, or the least that holds a chip and a map |
| ConnectionsWindow.HumanBytes | bin/net-observer-bar/src/connections.rs:108-126 | the unit is the least in which the figure stays under 999.95, or the last |
| ConnectionsWindow.FigureInRange | bin/net-observer-bar/src/connections.rs:108-126 | the figure reads at least 1.0, at most 999.9 below the last unit, and is right to half a tenth |
| ConnectionsWindow.MoreNeverPrintsLess | bin/net-observer-bar/src/connections.rs:108-126 | more bytes never print as less |
| ConnectionsWindow.HiddenFlows | bin/net-observer-bar/src/connections.rs:187-200 | the hidden counts are the saturated sums of what is not listed |
| ConnectionsWindow.FlowsConserved | bin/net-observer-bar/src/connections.rs:187-200 | every flow is listed or hidden under one scope, and nothing is hidden with the box off |

## Left out

- Shutdown: modelled as a machine of atomic steps rather than a class, since its theorems are about interleavings; the cells of `events.rs` and `air.rs` are one machine that takes the steps of either loop, and sends are steps that may find the receiver gone.
- Shutdown.StepsRunOut: counts a subscription attempt as one step that always ends, as the bounded handshake of `subscribe` in `net-observer-ipc` does; that handshake is not part of this model.
- AnnounceSource.Capture.Recv: models the deadline by letting a drain take any number of turns, not by elapsed time; a source dropped while its thread sends is not modelled.
- Listening.NamesAreTied: is about mDNS and DHCP names; the kind and detail of a service are not traced back past the decoders.
- AnnounceSource.AnnounceSource.Next: keeps its window as the list of frames absorbed, which `Listening.RowsOf` reads as `Window.Window` does; log lines are left out.
- Pcap.ByteReader.ReadExact: an interrupted or partial read by the operating system is part of one read here.
- Dhcp.Decode: UTF-8 and trimming are the parameter `text`.
- Mdns.Decode: starts from parsed records; the parser and the lossy text of labels are not part of this model.
- Window.Window.Absorb: the Ethernet slicer, SSDP text and DNS parsing are parameters; rows are maps rather than lists in MAC order.
- OwnFrames.CountOwnFrames: the frame classifier is a total function fixed on one own MAC; counters are unbounded.
- Connections.BuildConnectionsSample: `classify` is a function of the destination, its address rules are not modelled.
- EventBridge.Bridge.BridgeSend: the drop counter is unbounded, and a row's text is not modelled.
- ScanButton.AirFeed.Apply: the thread that asks the daemon is the events it causes.
- Portal.Prober.Run: the HTTP reading of an answer is a parameter, and an endless loop is every finite list of its turns.
- PackRows.PackRows: pixels are reals, so `f32` rounding is not modelled; the same holds of `AxisTicks`, `Channels`, `StarMap` and `ConnectionsWindow.HumanBytes`.
- AirMap.Group: the configuration grade of an access point and the parsing of band names are left out.
- StarMap.Partition: the text on a chip is given; the capacity of a ring needs trigonometry and is a parameter.
- ConnectionsWindow.HiddenFlows: reading the daemon's table into rows is a branch table and is left out.
- Rendering, window and menu handling, sockets, child processes, storage and queries are input and output around this core.
- Distance hypotheses, mark angles and ring capacity need logarithms and trigonometry.
- Uplink cards, captions, clocks and diagnosis text would add only easy members.
