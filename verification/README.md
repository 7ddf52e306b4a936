# The harness of LiberSystem, modelled and proved

LiberSystem is an operating system; its `src/harness` holds the tools that build what the system boots from, speak
its protocols from outside, and account for its time. This project models the parts of the harness whose answers
everything else rests on:

- the device-tree editor, which reads, edits and writes flattened device trees (`Fdt`, `FdtWriter`, `FdtRoundTrip`,
  `FdtStrings`, `FdtEdit`, `FdtFixtures`, `FdtIdle`), and the DMA-mode record it carries (`FdtRecord`);
- the object-push client and server of the Bluetooth peers (`Obex`, `ObexRun`) and the reassembly of isochronous audio
  (`Iso`);
- the accountant of frame time (`Timeline`, `FrameAccount`, `FrameOrder`, `FrameSummary`, `FrameWitness`, `Parks`);
- the ACPI byte-code emitter and the reader of its field lists (`Aml`, `AmlTerms`, `AmlFields`);
- the development protocol's frames (`Proto`), the management controller's framing and event log (`IpmiFraming`,
  `IpmiSel`);
- the IPv6 test peer's checksums, frame decoder and packet builders (`InetSum`, `InetFrame`, `InetSend`).

`dafny verify dfyconfig.toml` checks all of it.

How the source's shapes are rendered: bytes are integers below 256 and byte strings are sequences of them; every Python
exception is `None`, `false` or an outcome of its own; names that Python holds as text are held as the UTF-8 or UTF-16
they are stored as; numbers are unbounded except where the source packs, masks or wraps them, which is written out. Code
that loops or updates objects is a method or a class whose `ensures` equates it with a function of its inputs or of its
old state; the theorems are about those functions. Sockets and streams are sequences of chunks or steps of a state
machine, in every order and every cut.

## Model

| member | source | states |
|---|---|---|
| Fdt.ReservedBlock | src/harness/fdt_edit.py:124-134 | The loop answers the pairs through the first pair of zeros, and fails when the blob ends first. |
| Fdt.ParseStruct | src/harness/fdt_edit.py:141-176 | The token loop over an offset and a stack equals the recursive reader of the block's suffixes, malformed blocks included. |
| Fdt.Parse | src/harness/fdt_edit.py:137-179 | The whole reader, by header, blocks and reservation; one failure value for everything it raises. |
| FdtWriter.Intern | src/harness/fdt_edit.py:186-192 | The strings block only grows at its end, and every offset given out still finds its name. |
| FdtWriter.StandsInLonger | src/harness/fdt_edit.py:186-192 | A name stays where it was put as the block grows. |
| FdtWriter.Writer.StringOffset | src/harness/fdt_edit.py:186-192 | The offset of a name, entered once. |
| FdtWriter.Writer.PutProps | src/harness/fdt_edit.py:197-198 | Appends exactly the properties' tokens; packing fails only where the blob would pass 32 bits anyway. |
| FdtWriter.Writer.Emit | src/harness/fdt_edit.py:194-201 | Appends exactly the node's recursive emission and threads the table through it. |
| FdtWriter.Writer.PutNodes | src/harness/fdt_edit.py:199-200 | Appends the children in order. |
| FdtWriter.Serialize | src/harness/fdt_edit.py:182-212 | The blob laid out as header, reservation, structure, strings; it fails exactly when a 32-bit field overflows. |
| FdtStrings.EachNameOnce | src/harness/fdt_edit.py:182-202 | The strings block is every property name in use, each once, in order of first use, and nothing else. |
| FdtStrings.SizeIsLength | src/harness/fdt_edit.py:203-212 | The size field is the blob's length. |
| FdtRoundTrip.RunNode | src/harness/fdt_edit.py:137-202 | Reading an emitted node of any depth, with any later strings block, attaches exactly that node. |
| FdtRoundTrip.RoundTrip | src/harness/fdt_edit.py:124-212 | A written tree reads back as itself if and only if its names hold no NUL and are text, and its reservation is pairs closed by their only pair of zeros. |
| FdtRoundTrip.ParsedIsOk | src/harness/fdt_edit.py:124-179 | Everything the reader accepts meets that condition. |
| FdtRoundTrip.Rewrite | src/harness/fdt_edit.py:137-212 | For every accepted blob: writing and reading again gives the same tree, and writing that gives the same bytes; it is refused only for size. |
| FdtRoundTrip.NothingCutShort | src/harness/fdt_edit.py:141-176 | The reader equals one that checks every bound: no accepted block ends inside a name, a value or padding. |
| FdtRecord.FindRecord | src/harness/dma-mode-record.py:104-140 | The streaming search over a stack of marks equals its specification on every blob. |
| FdtRecord.FirstCarried | src/harness/dma-mode-record.py:104-140 | None exactly when no node carries a record; otherwise the record of the first that does. |
| FdtRecord.FoundIsFirstCarried | src/harness/dma-mode-record.py:104-140 | On every blob the tree reader accepts, the search answers the first record in post-order of the tree, among compatible nodes. |
| FdtRecord.AddNode | src/harness/dma-mode-record.py:93-101 | Adding the node and writing the tree, with the refusals. |
| FdtRecord.AddThenFind | src/harness/dma-mode-record.py:93-140 | After adding, the tree has gained that child alone, and the search answers an earlier record, else the new one for every well-compatible shape, else what the root carries. |
| FdtEdit.SetProp | src/harness/fdt_edit.py:55-61 | Setting gives that key that value and leaves every other key. |
| FdtEdit.ChildIndex | src/harness/fdt_edit.py:63-67 | The first child of that name, or none has it. |
| FdtEdit.Walk | src/harness/fdt_edit.py:92-98 | The worklist visits every node exactly once, in recursive pre-order; the measure is what is still to visit. |
| FdtEdit.WalkHandles | src/harness/fdt_edit.py:92-106 | The phandles met on the walk are the phandles of the tree, as often as used. |
| FdtEdit.NewPhandle | src/harness/fdt_edit.py:100-111 | One more than the largest phandle, which no node uses. |
| FdtEdit.HandlesPut | src/harness/fdt_edit.py:43-111 | Replacing one node exchanges its phandles and leaves all others. |
| FdtEdit.OneNode | src/harness/fdt_edit.py:100-106 | Two nodes with one phandle count twice: where phandles are distinct, a phandle is one node's. |
| FdtEdit.PutKeeps | src/harness/fdt_edit.py:55-73 | An edit at one place leaves every other node its place, name, properties and number of children; that place keeps what the edit did not touch. |
| FdtFixtures.HostIsFirstVisited | src/harness/fdt_edit.py:223-227 | The recursive search finds the first node of the walk whose type is `pci`. |
| FdtFixtures.PciHost | src/harness/fdt_edit.py:223-227 | What is found is a host, at a place in the tree. |
| FdtFixtures.VirtioQuiet | src/harness/fdt_edit.py:238-248 | Below the host the function and below it the device, each as it was found or else exactly as made, and then the only child its parent gains; the host and the function keep their properties, no phandle changes, and nothing else. |
| FdtFixtures.GpioKeeps | src/harness/fdt_edit.py:251-257 | A controller with a phandle is left alone; another gets a controller's five properties, the next phandle the last of them, and keeps the rest. Only the two nodes above may gain a child. |
| FdtFixtures.GpioDistinct | src/harness/fdt_edit.py:251-257 | Distinct phandles stay distinct if and only if the controller had one, a number is left above the largest, or the word that wraps to 0 is free. |
| FdtFixtures.GpioDoesCollide | src/harness/fdt_edit.py:251-257 | A tree with phandles 0 and 2^32 - 1 on which the controller is made and distinctness is lost. |
| FdtFixtures.TreeFixtureOk | src/harness/fdt_edit.py:260-266 | The tree is the controller's with one child more, whose interrupt names the controller's phandle; where phandles are distinct that is the controller's alone. Nothing else changes, and no other phandle comes. |
| FdtFixtures.HidFixtureOk | src/harness/fdt_edit.py:273-282 | The bus gets its two properties and exactly the two devices in order, whose interrupts name the controller's phandle and no other node's; only the two functions' nodes and those above them change. |
| FdtFixtures.TcpcFixtureOk | src/harness/fdt_edit.py:293-302 | The same with the port controller and its connector. |
| FdtIdle.IdleSettles | src/harness/fdt_edit.py:315-340 | After the fixture every state stands under `/cpus/idle-states` by name with a phandle, and every cpu names those in order. |
| FdtIdle.SettledStays | src/harness/fdt_edit.py:315-340 | A tree so settled is left exactly as it is. |
| FdtIdle.IdleTwice | src/harness/fdt_edit.py:315-340 | Applying the fixture twice equals applying it once. |
| FdtIdle.IdleFixtureOk | src/harness/fdt_edit.py:315-340 | Phandles are distinct after if and only if they were before and, with one number for each state not yet there, the last is below 2^32, or is 2^32 where 0 is free. Exactly those states' nodes are added, numbered on, below idle states that are made if there were none; the cpus change in `cpu-idle-states` alone, and nothing else changes. |
| FdtIdle.IdleDoesCollide | src/harness/fdt_edit.py:315-340 | A tree on which the fixture is applied and distinctness is lost. |
| Obex.Receiver.DataReceived | src/harness/bluetooth_transfer_peers.py:99-136 | One call equals draining the buffer with the new bytes, and fails exactly when that does. |
| Obex.Receiver.TakePut | src/harness/bluetooth_transfer_peers.py:36-50 | The headers of a packet are taken in order, by the loop that consumes them. |
| Obex.StripNul | src/harness/bluetooth_transfer_peers.py:119 | The name without its trailing NULs, and nothing changed exactly when there are none. |
| Obex.DrainLeavesPart | src/harness/bluetooth_transfer_peers.py:102-109 | Between calls the buffer is a strict part of one packet and under 4096 bytes. |
| Obex.DrainThenMore | src/harness/bluetooth_transfer_peers.py:99-136 | Draining early changes nothing about draining later. |
| Obex.CutsDoNotMatter | src/harness/bluetooth_transfer_peers.py:99-136 | From any state between calls, every way of cutting a stream gives the state, the replies or the failure of the whole. |
| ObexRun.RequestHandled | src/harness/bluetooth_transfer_peers.py:110-136 | Each request of the sender moves the receiver as the sender counts on and draws the code it expects. |
| ObexRun.StepKeeps | src/harness/bluetooth_transfer_peers.py:162-187 | Every step of sender, receiver or either stream keeps the protocol's invariant and lowers its rank. |
| ObexRun.GoesOn | src/harness/bluetooth_transfer_peers.py:162-187 | A run that has not finished can take a step: no deadlock. |
| ObexRun.EveryRunDelivers | src/harness/bluetooth_transfer_peers.py:90-187 | For every object up to 1 MiB, every name whose header fits, every schedule and every cut of both streams: no failure, bounded length, and at the end exactly the object and the name, complete if and only if the object is not empty. |
| ObexRun.EveryRunFinishes | src/harness/bluetooth_transfer_peers.py:162-187 | Every run can be carried on until both ends have finished. |
| ObexRun.EmptyPushEnds | src/harness/bluetooth_transfer_peers.py:182-187 | A run that pushes an empty object to its end without being counted as complete. |
| Timeline.Split | src/harness/frame_account.py:106-121 | The loop's three totals are the cycles the state machine spends in each state. |
| Timeline.TransitionsSorted | src/harness/frame_account.py:99-104 | The transitions kept from ordered events are ordered and among them. |
| Timeline.CyclesSum | src/harness/frame_account.py:106-121 | The three add up to the stretch. |
| Timeline.CyclesAdd | src/harness/frame_account.py:106-121 | They are additive across any moment. |
| Timeline.RunningIntervals | src/harness/frame_account.py:123-138 | The loop collects the stretches the machine runs. |
| Timeline.InsideOne | src/harness/frame_account.py:123-138 | A cycle is in exactly one interval when the thread runs in it, and in none otherwise. |
| Timeline.RunningIsOverlap | src/harness/frame_account.py:106-138 | The running share of any stretch is its total overlap with the intervals. |
| FrameAccount.CommandBreakdown | src/harness/frame_account.py:436-449 | The loop over a device call's commands equals its specification, refusals included. |
| FrameAccount.DriverBreakdown | src/harness/frame_account.py:426-453 | The device call split by the driver's records. |
| FrameAccount.DriverTile | src/harness/frame_account.py:426-453 | The driver's terms are contiguous from the call to its end. |
| FrameAccount.AppMoments | src/harness/frame_account.py:286-302 | The application's moments are marked by its sites, each at or after the one before. |
| FrameAccount.FrameTiles | src/harness/frame_account.py:282-372 | Every frame's terms, driver terms included, are contiguous from its start to its end. |
| FrameAccount.TilesTotal | src/harness/frame_account.py:322-372 | Contiguous terms add up to the interval exactly, whatever their signs. |
| FrameOrder.DriverForward | src/harness/frame_account.py:426-453 | The device call's terms all run forwards if and only if each command is notified no earlier than the one before it was seen to complete. |
| FrameOrder.ForwardInTurn | src/harness/frame_account.py:304-367 | All terms of an accepted frame run forwards if and only if the recorded sites are in turn: the blit ends after it begins and before the device call, the commands come in turn, the call ends before the completion, and that comes before the reply. |
| FrameWitness.BackwardAccepted | src/harness/frame_account.py:194-277 | A whole drain with the reply before the completion, which the account accepts with work and wait longer than the frame. |
| FrameSummary.EventsSorted | src/harness/frame_account.py:151-167 | Every thread's events are in order of time when the records are. |
| FrameSummary.SortedInOrder | src/harness/frame_account.py:203 | Sorting puts the records in order of time and keeps every one. |
| FrameSummary.AttributedIsTotal | src/harness/frame_account.py:322-330 | Work and wait of any terms add up to their total if and only if none runs backwards, and never to less. |
| FrameOrder.ForwardUntilAccepted | src/harness/frame_account.py:282-339 | The terms up to the acceptance of the present never run backwards. |
| FrameSummary.AccountFrames | src/harness/frame_account.py:245-250 | The loop chains each frame's start to the last one's end. |
| FrameSummary.FramesOk | src/harness/frame_account.py:245-250 | All intervals add up to the last end minus the begin. |
| FrameSummary.OfShape | src/harness/frame_account.py:252-257 | A shape's group is exactly the frames of that shape. |
| FrameSummary.NamedMsIsAll | src/harness/frame_account.py:456-485 | Regrouping the terms by name loses and doubles nothing. |
| FrameSummary.NoResidue | src/harness/frame_account.py:456-485 | Any group's mean terms add up to its mean interval: the residue is zero. |
| FrameSummary.ResidueNeverRefuses | src/harness/frame_account.py:194-277 | So the account's refusal for an unnamed residue refuses no drain that passes its other checks, a failed park among them. |
| FrameSummary.AccountAddsUp | src/harness/frame_account.py:194-277 | Of every accepted drain: frames contiguous, each frame's terms summing to it and their work and wait summing to it if and only if its recorded sites are in turn, all frames summing to the time from `acct-beg` to the last present. |
| Parks.ParkBreakdown | src/harness/frame_account.py:390-423 | The loop's parks and its two totals, and its refusal of a park that ended in an error. |
| Parks.RefusedForPark | src/harness/frame_account.py:405-409 | A frame is refused for its parks if and only if one ended in an error that is no deadline, in the window the account looks at. |
| Parks.ParksApart | src/harness/frame_account.py:390-423 | Clipped parks of a time-ordered window do not overlap. |
| Parks.DeadlineSplits | src/harness/frame_account.py:410-423 | Each bounded park is split at its deadline without loss. |
| Parks.ParksAddUp | src/harness/frame_account.py:390-423 | Within and beyond the deadline add up to the bounded wait, which never exceeds the window. |
| Parks.AccountParks | src/harness/frame_account.py:326-330 | So in every frame of every accepted drain, and the bounded wait is no more than the pacing term. |
| Aml.LengthRoundTrip | src/harness/aml_emitter.py:46-56 | Every number under 2^28 decodes to itself and its size. |
| Aml.FieldLength | src/harness/aml_emitter.py:46-56 | The accumulating loop, and its refusal of 2^28 and more. |
| Aml.PkgLength | src/harness/aml_emitter.py:32-43 | The search for a prefix that counts itself, and its refusal. |
| Aml.PkgRoundTrip | src/harness/aml_emitter.py:32-43 | The prefix decodes to its own size and the body's, and spans exactly the body. |
| Aml.PkgShortest | src/harness/aml_emitter.py:32-43 | No shorter prefix counts itself and that body. |
| AmlTerms.NameRoundTrip | src/harness/aml_emitter.py:59-85 | Root, parents and up to 255 segments read back, whatever follows, if and only if every segment takes four bytes - as all of ASCII do. |
| AmlTerms.LongSegment | src/harness/aml_emitter.py:59-65 | A segment of four characters and five bytes, whose name is read as another. |
| AmlTerms.IntRoundTrip | src/harness/aml_emitter.py:105-118 | Every 64-bit integer in its shortest form reads back. |
| AmlTerms.TermRoundTrip | src/harness/aml_emitter.py:92-184 | Of everything the emitter writes - any nesting of scopes, devices, methods, packages, strings, integers and names - a term reads back as itself, leaving what follows, if and only if its strings hold no NUL, its methods take at most seven arguments, its names have four-byte segments and no operand is the null name. |
| AmlTerms.AllRoundTrip | src/harness/aml_emitter.py:163-184 | The same of a list of terms: nesting and sibling order are recovered under exactly that condition. |
| AmlFields.PageUnits | src/harness/acpi-fixture.py:655-680 | The walk of one field list by offset and bit, with its failures. |
| AmlFields.PlacedAt | src/harness/acpi-fixture.py:668-680 | A unit's place is the sum of the widths of all entries before it. |
| AmlFields.FieldReadBack | src/harness/aml_emitter.py:216-238 | Wherever an emitted field stands, the walk answers its units in order at those places if and only if no entry is a connection and every unit's name takes four bytes; it then ends at the field's end. |
| Proto.Peer.Skim | src/harness/proto-test.py:167-179 | One look at the buffer takes the first frame past the junk, or keeps only what may begin one. |
| Proto.Peer.Read | src/harness/proto-test.py:164-188 | The next frame of the stream, however it is cut; none exactly when no whole frame comes before the wait ends, and then nothing is lost. |
| Proto.Peer.ReadAll | src/harness/proto-test.py:164-188 | Reading until nothing comes answers every frame that comes before the wait ends. |
| Proto.Peer.ReadSent | src/harness/proto-test.py:164-188 | Of frames sent with magic-free junk, cut into reads in any way, exactly those, in order. |
| Proto.Peer.Call | src/harness/proto-test.py:193-201 | The first reply to this request among the frames that come. |
| Proto.LookThenMore | src/harness/proto-test.py:167-179 | Dropping what a look drops changes none of the frames the stream holds, whatever comes after. |
| Proto.FrameRoundTrip | src/harness/proto-test.py:269-271 | A packed frame decodes to its fields and payload. |
| Proto.FramesOfStream | src/harness/proto-test.py:164-188 | Frames with magic-free junk before each and after the last are exactly the frames read, in order. |
| Iso.Capture.TakePacket | src/harness/bluetooth_le_peers.py:93-113 | One packet's effect, each error leaving the state where it arose. |
| Iso.Capture.TakeFragment | src/harness/bluetooth_le_peers.py:111-122 | The fragment joined, and the unit handed to the decoder when it ends. |
| Iso.EveryUnitDelivered | src/harness/bluetooth_le_peers.py:93-135 | For every sequence of units of the agreed length, however fragmented and with losses between: exactly those units are decoded in order, losses and modulo-2^16 gaps are the sets they are defined as, nothing is reported or left. |
| Iso.CleanIsStream | src/harness/bluetooth_le_peers.py:93-135 | For every list of packets: it is whole units and losses if and only if the capture reports nothing and, by its flags alone, no unit begins or the list ends while one is under way. |
| Iso.CarryingIsStream | src/harness/bluetooth_le_peers.py:93-135 | Where first fragments carry something, reporting nothing and being left with nothing says the same. |
| Iso.EmptyFirstIsDropped | src/harness/bluetooth_le_peers.py:97-106 | The capture cannot see all of it: a unit begun by an empty fragment is dropped unreported, for every body. |
| IpmiFraming.EscapeData | src/harness/ipmi-harness-bmc.py:212-219 | The escaping loop. |
| IpmiFraming.ChecksumIsTheOne | src/harness/ipmi-harness-bmc.py:222-223 | The checksum is the only byte that brings the sum to zero modulo 256. |
| IpmiFraming.Parser.FeedBytes | src/harness/ipmi-harness-bmc.py:238-254 | One call's items and state. |
| IpmiFraming.Parser.FeedChunks | src/harness/ipmi-harness-bmc.py:238-254 | One call per chunk gives what one call for all of them gives. |
| IpmiFraming.ItemsRead | src/harness/ipmi-harness-bmc.py:212-254 | Framed messages and commands of any bytes are read back in order, leaving nothing pending. |
| IpmiFraming.MessagesRead | src/harness/ipmi-harness-bmc.py:226-254 | The framed bytes of any messages are read as exactly the messages with their checksums, each summing to zero, leaving the buffer empty and no escape pending. |
| IpmiFraming.ReadMessages | src/harness/ipmi-harness-bmc.py:226-254 | The same of a new parser fed those bytes chunk by chunk, however they are cut. |
| IpmiSel.Bmc.AddSel | src/harness/ipmi-harness-bmc.py:281-292 | The record appended, the number and the reservation moved on; past 65535 records it fails and changes nothing. |
| IpmiSel.Bmc.Find | src/harness/ipmi-harness-bmc.py:385-390 | The first record of that number. |
| IpmiSel.Bmc.Answer | src/harness/ipmi-harness-bmc.py:356-399 | The log's commands and the event message, with their codes and exceptions. |
| IpmiSel.ApplyKeeps | src/harness/ipmi-harness-bmc.py:281-399 | Every command keeps numbers rising and the reservation in step, and adds one record, none, or empties the log. |
| IpmiSel.RunKeeps | src/harness/ipmi-harness-bmc.py:281-399 | Over every run the invariant holds and no number is given twice, clears included. |
| IpmiSel.EveryWalkReadsLog | src/harness/ipmi-harness-bmc.py:383-392 | Following next numbers from 0 reads the log once, in order, to its end if and only if its last number is not 0xFFFF or it holds one record. |
| IpmiSel.StaleRefused | src/harness/ipmi-harness-bmc.py:291-398 | A reservation taken before an addition is refused with the log untouched, if and only if it is not the very first used after all 65535 additions. |
| IpmiSel.FreshObeyed | src/harness/ipmi-harness-bmc.py:381-398 | With no addition between, the reserved clear empties the log and keeps the numbering. |
| IpmiSel.InfoFails | src/harness/ipmi-harness-bmc.py:379-380 | The size reply fails if and only if the log holds more than 64 records; otherwise records and room fill 1024 bytes. |
| IpmiSel.Additions | src/harness/ipmi-harness-bmc.py:281-292 | Additions alone, up to 65535, are each made and numbered from 1 on, and the reservation follows. |
| IpmiSel.InfoDoesFail | src/harness/ipmi-harness-bmc.py:379-380 | After 65 additions the size reply fails. |
| IpmiSel.WalkDoesStopShort | src/harness/ipmi-harness-bmc.py:383-392 | After 65535 additions the walk stops short of the last record. |
| IpmiSel.StaleIsObeyed | src/harness/ipmi-harness-bmc.py:393-398 | After them the first reservation of all is not refused. |
| IpmiSel.AdditionDoesFail | src/harness/ipmi-harness-bmc.py:281-284 | And a further addition fails and changes nothing. |
| InetSum.FoldIs | src/harness/ipv6-peer.py:172-173 | The carry loop is the remainder modulo 65535, with 65535 for zero except of zero. |
| InetSum.AddWords | src/harness/ipv6-peer.py:167-171 | The word loop with its odd last byte. |
| InetSum.FoldComplement | src/harness/ipv6-peer.py:172-175 | The carry loop and the complement that is never zero. |
| InetSum.OnesComplement | src/harness/ipv6-peer.py:165-175 | The plain checksum, odd lengths included. |
| InetSum.Checksum | src/harness/ipv6-peer.py:178-194 | The checksum over the pseudo-header. |
| InetSum.ComplementIsTheOne | src/harness/ipv6-peer.py:172-194 | The checksum is the only nonzero number with which the whole folds to 0xFFFF. |
| InetSum.PatchedFolds | src/harness/ipv6-peer.py:165-194 | A checksum put over two zero bytes at an even offset makes the whole fold to 0xFFFF. |
| InetFrame.ReadFrame | src/harness/ipv6-peer.py:200-308 | The decoder is total and ends on every byte string, and equals its specification. |
| InetFrame.ReadExtensions | src/harness/ipv6-peer.py:261-274 | The nested loops over headers and options equal the recursive walk. |
| InetFrame.ReadOptions | src/harness/ipv6-peer.py:265-272 | The loop over one header's options. |
| InetFrame.ReadUpper | src/harness/ipv6-peer.py:275-308 | The transport half of the decoder. |
| InetFrame.ReadGroups | src/harness/ipv6-peer.py:299-306 | The loop over a listener report's records. |
| InetFrame.ChainRead | src/harness/ipv6-peer.py:261-275 | Through any chain of extension headers and options the walk ends at the transport payload, and sees an alert if and only if an option is one. |
| InetFrame.GroupsRead | src/harness/ipv6-peer.py:299-306 | Every record's group is read in order, past its sources. |
| InetSend.Ipv6Read | src/harness/ipv6-peer.py:484-487 | Any packet so built, extension headers included, decodes to its addresses, hop limit and transport payload. |
| InetSend.SendUdp6 | src/harness/ipv6-peer.py:489-496 | The datagram with its checksum in place, or the packing failure. |
| InetSend.UdpRoundTrip | src/harness/ipv6-peer.py:489-496 | It decodes to the same addresses, ports and payload, and its pseudo-header sum folds to 0xFFFF. |
| InetSend.SendTcp6 | src/harness/ipv6-peer.py:502-507 | The segment over IPv6, or the packing failure. |
| InetSend.Tcp6RoundTrip | src/harness/ipv6-peer.py:502-507 | It decodes to the same addresses, ports, numbers and flags, to the same payload if and only if the options fill four-byte units, and its sum folds to 0xFFFF. |
| InetSend.OptionReadAsPayload | src/harness/ipv6-peer.py:502-507 | One byte of options is read as payload. |
| InetSend.SendTcp4 | src/harness/ipv6-peer.py:459-468 | The segment over IPv4, or the packing failure. |
| InetSend.Tcp4RoundTrip | src/harness/ipv6-peer.py:459-468 | The same over IPv4, with header and pseudo-header sums both folding to 0xFFFF. |
| InetSend.SendEchoRequest4 | src/harness/ipv6-peer.py:439-446 | The echo request with both checksums in place, or the packing failure. |
| InetSend.AnswerEcho4 | src/harness/ipv6-peer.py:449-456 | The answer to a decoded request, or the packing failure. |
| InetSend.EchoRoundTrip | src/harness/ipv6-peer.py:439-456 | An echo message decodes to its kind, its addresses and, for a request, itself; header and message fold to 0xFFFF. |
| InetSend.EchoAnswered | src/harness/ipv6-peer.py:237-249 | Whatever the decoder calls a request has what an answer needs, and the answer decodes to a reply between the same addresses turned round. |

## Where the code and what is said of it differ

- An object push with an empty object ends well at both ends, but the receiver never counts it as complete: the
  sender's loop has no last fragment to send (`ObexRun.EveryRunDelivers`, `ObexRun.EmptyPushEnds`).
- The account refuses a drain whose terms leave part of an interval unnamed; in exact arithmetic the residue is always
  zero, so this refusal cannot happen (`FrameSummary.ResidueNeverRefuses`). A term that runs backwards is not refused
  (`FrameWitness.BackwardAccepted`), and then work and wait exceed the interval; this happens exactly when the sites
  after the acceptance are out of turn (`FrameOrder.ForwardInTurn`).
- The emitter writes connections in field lists; the walk takes one for a unit's name (`AmlFields.FieldReadBack`, and
  `AmlFields.ConnectionUnread` for a table where it then runs off the end).
- The emitter takes upper-case letters and digits of any script for a name, so a segment can take more than four bytes,
  which no reader of four-byte segments recovers (`AmlTerms.NameRoundTrip`, `AmlTerms.LongSegment`). It also writes a
  string with a NUL in it, keeps only three bits of a method's number of arguments, and writes the null name as an
  operand with the byte of a zero; each is read as something else (`AmlTerms.TermRoundTrip`).
- "New ISO SDU overtook an unfinished SDU" is not reported of a unit that has begun with an empty fragment
  (`Iso.EmptyFirstIsDropped`).
- The event log's size reply fails above 64 records, which additions do not stop at (`IpmiSel.InfoFails`); a reservation
  comes round exactly when the record numbers end, and there the walk also stops short (`IpmiSel.StaleRefused`,
  `IpmiSel.EveryWalkReadsLog`).
- A phandle above the largest 32-bit number is written as 0 (`FdtFixtures.GpioDistinct`, `FdtIdle.IdleFixtureOk`).
- TCP options that are not whole four-byte units put their tail in the payload that is read
  (`InetSend.Tcp6RoundTrip`, `InetSend.OptionReadAsPayload`).

## Left out

- Updating tree nodes in place: edits are functions from trees to trees with paths of child indices, so aliasing of nodes is not modelled; the reader attaches a child when it ends rather than when it begins.
- `system_suspend_fixture`, `Tree.find` beyond `/cpus`, command lines and self-tests of the device-tree tools: they add only easy members.
- The text of names: the splitting of dotted AML names and Python's decoding with replacement are modelled on bytes and segments, and which characters past ASCII count as upper case is left open.
- The record's own eight bytes in the DMA-mode tool: the node carries any bytes, so what they are does not matter.
- AML operators, buffers elsewhere than in a connection, resource descriptors and the concrete tables: every one is a prefix and operands, or data.
- The byte-pattern search of `page_units` over a whole table: one field list is walked from where it begins.
- Floating-point rounding in the account: arithmetic is over reals, so a residue that rounding alone makes is not modelled.
- `parse_log`, `render`, dispatch statistics, primitives and the demo report: text and medians.
- Clocks, timeouts and the enhanced retransmission check of the object-push receiver: a wait that ends is a step or an empty read.
- The LC3 decoder, captured samples and their files: the decoder is the list of units it is given, and does not fail.
- Other commands of the management controller (sensors, inventory, watchdog, chassis): each answers from a table.
- The names of ICMPv6 messages, `describe` and the scenarios of the IPv6 peer: a message is named by its number.
