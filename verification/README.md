# Verification of the SDIO/SIP host link

This project models the host side of the link between an application processor and an
external connectivity chip: the SDIO adapter with its two modular counters, the Wi-Fi
transmit queue and its send task, the firmware download, the chain parser of the receive
task, the boot handshake and the Bluetooth send gate. The target is the environment. It may
produce bytes and grant buffers before any access, any transfer may fail, and the memory it
ends up with is a function of the transfers that reached it.

Code that works in place is imperative here: classes with the fields of the C structures,
loops with invariants, buffers as arrays. Each method is proved against a specification
function, and the properties are lemmas about those functions. The interleaving of the
tasks is a transition system built from the same functions.

| files | what they hold |
|---|---|
| `Words`, `Roundup`, `SipFormat`, `Partition` | machine words, the `roundup` macro from its bits, the packet header, stable splitting of a sequence |
| `SdioCounters`, `SdioTransfers`, `SdioLink` | the modular counters against unbounded totals, the cutting of packets into CMD53 transfers, the adapter working on a card |
| `TargetRom`, `MemoryWrite`, `SipLayer`, `Firmware`, `FirmwareImage`, `ImageDownload` | memory writes as the target decodes them, the 236-byte chunker, the SIP layer, the image walk, and which images arrive whole |
| `TransRecv`, `ReceiveChain`, `ReceiveStream`, `ReceiveEvents` | the chain loop, its round trip, numbering over whole runs, reads that cut the stream anywhere, and what the events of a chain leave behind |
| `WifiQueue`, `WifiSend` | the intrusive list on the heap, the frame the send task builds and sends |
| `LinkSystem`, `LinkSteps`, `LinkSafety`, `LinkTheorems`, `LinkRelease` | all tasks as one transition system, what each step changes, the invariants, what they mean for every run, and that every mutex is released |
| `Order`, `LinkOrder`, `LinkCredit`, `LinkService` | over every run of it: the order of the buffers and where they end up, the ledger of transmit buffers and what the credit check decides, and that every interrupt is served |
| `BluetoothGate`, `TransBt`, `CreditInterrupt` | the semaphore gate, one Bluetooth message, the lock operations of the credit interrupt |

## Findings

- Transmit credit is safe in every interleaving, although the SDIO mutex is free between the
  check and the send (`LinkTheorems.CreditSafety`). It rests on one assumption about the
  target: when the send task starts, the grants cover what boot has used. For a single check
  that is the exact condition, up to a shortfall that is a multiple of 4096
  (`SdioCounters.CreditCheckSound`).
- Buffers are sent in the order of the queue, whatever the tasks do in between: nobody
  overtakes, a buffer enters behind all that are queued or before them, and leaves only to be
  sent or because a clear drops it (`LinkOrder.QueueOrder`, `LinkOrder.InsertPlace`,
  `LinkOrder.DroppedByClear`, `LinkOrder.FinalPlaces`).
- `esp_sip_bootup` sends the command, then sets the state, then creates the semaphore. A target
  that reports being on before the state is set is ignored; one that reports bootup before the
  semaphore exists gives a semaphore that is not there. In both cases boot times out.
  `LinkTheorems.AnsweredIff` and `LinkTheorems.GiveFailsIff` are the exact conditions,
  `LinkTheorems.LostTargetOn` and `LinkTheorems.EarlyBootup` complete runs. When the command
  could not be sent, a semaphore is deleted that was never created
  (`LinkTheorems.DeleteFailsIff`).
- The receive sequence number advances before it is compared. After a lost packet the host
  delivers nothing as long as it is never in step: a batch is delivered if and only if its
  first length is acceptable and the lag is a multiple of 2^32
  (`ReceiveChain.BatchDeliversIff`, over whole runs `ReceiveChain.NothingDeliveredIff`).
  `ReceiveChain.LossHappens` is a run that gets behind.
- A read takes at most 32768 bytes, wherever that ends. Over any run of reads exactly what was
  read is handed out if and only if every read ends with a packet
  (`ReceiveStream.RunExactIff`); a packet that is cut behind its header is handed out with a
  length beyond the data, and the read succeeds (`ReceiveStream.CutPacketDelivered`).
- `esp_extconn_sdio_send_packet` computes the address once. The windows are exact if and only
  if the length is below 512 or a multiple of 512 (`SdioTransfers.WindowsExactIff`). The block
  sizes that keep every Wi-Fi frame exact are the multiples of 512 and no others
  (`WifiSend.FrameWindowsIff`).
- The padding of a memory write is whatever follows in the source, not the zeroes stored
  before it. An image arrives whole if and only if no block loses a byte to a later one, that
  is, if wherever the rounded range of a later block is the last over a byte of an earlier
  block, the image holds that same byte there (`ImageDownload.ImageArrivesIff`).
  Padding that runs into a later block does no harm (`ImageDownload.LaterDataWins`), disjoint
  data alone is not enough: `ImageDownload.FailingImage` is an image the code downloads, with
  success, that leaves a wrong byte in memory.
- `handle_intr1` keeps to the mutex if and only if both its register accesses succeed
  (`CreditInterrupt.CreditPathDisciplined`).
- `roundup` rounds up exactly when the block size is a power of two, and a block size of 0
  makes every frame empty (`Roundup.MaskRoundsIff`, `Roundup.MaskCovers`).
- A truncated `esp_extconn_sdio_get_packet` returns success: the error it sets is overwritten
  by the first transfer, and is never returned (`SdioLink.SdioHost.GetPacket`). A packet longer
  than the window of 129024 bytes would be counted in full although only its tail arrives; the
  callers in the repository ask for at most 32768 bytes, so none gets there.
- The condition at src/trans_wifi.c:216 holds for every command id, so every Wi-Fi packet
  takes a number (`WifiSend.EveryIdTakesNumber`).
- The last transfer of a packet takes up to three bytes behind its buffer, and INIT takes
  fifteen bytes behind its structure. They are parameters of the model, so what is sent says
  where they go (`TransBt.BtTx.HandleMessage`, `SipLayer.EspSip.SendCmd`).

## Model

| member | source | states |
|---|---|---|
| Roundup.MaskRoundsIff | priv_include/esp_sip.h:15 | the bit expression is the least multiple at or above every length, if and only if the block size shares no bit with its predecessor (a power of two) |
| Roundup.MaskCovers | src/trans_wifi.c:174 | the rounded length covers the frame for every block size but 0, for which it is 0 |
| Roundup.MaskIsRoundUp4 | src/esp_sip.c:97 | rounding to four by mask is the arithmetic used elsewhere |
| Roundup.BlockMultiple | priv_include/esp_sip.h:15 | a block size that is a multiple of 512 rounds every length to a multiple of 512 |
| Roundup.OddBlock | priv_include/esp_sip.h:15 | for any other block size some frame length becomes at least 512 and no multiple of 512 |
| SipFormat.HdrRoundTrip | priv_include/sip2_common.h:161-169 | an encoded header decodes to itself wherever it lies in a buffer |
| SipFormat.HdrExact | priv_include/sip2_common.h:161-169 | the twelve bytes of a header are the encoding of what they decode to |
| SipFormat.TypeSet | priv_include/sip2_common.h:93-102 | setting the type stores it and leaves the interface index alone |
| SipFormat.SyncSet | priv_include/sip2_common.h:111-125 | the SYNC flag is set and no other flag changes |
| Partition.KeepIsStable | src/trans_wifi.c:114-135 | a kept element stands at the index that counts the kept elements before it |
| Partition.KeepOnlyKept | src/trans_wifi.c:114-135 | what is kept is exactly what is not to be discarded |
| Partition.PartitionIsExact | src/trans_wifi.c:114-135 | kept and discarded elements together are the original ones, with multiplicity |
| WifiQueue.WifiTx.ListRemove | src/trans_wifi.c:51-67 | takes the front of the queue and unlinks it; on an empty queue the wake-up bit is cleared; the stale tail is never followed |
| WifiQueue.WifiTx.ListInsert | src/trans_wifi.c:69-86 | appends to the queue and sets the bit; a null buffer is refused |
| WifiQueue.WifiTx.ListHeadInsert | src/trans_wifi.c:88-104 | prepends to the queue and sets the bit; a null buffer is refused |
| WifiQueue.LinkLast | src/trans_wifi.c:121-129 | re-links one kept buffer behind the list being rebuilt |
| WifiQueue.WifiTx.Sift | src/trans_wifi.c:115-134 | one round of the clearing loop: the front buffer is unlinked and either recycled or re-linked last |
| WifiQueue.WifiTx.Rebuild | src/trans_wifi.c:114-135 | the loop ends with every buffer looked at, kept and discarded ones separated in order |
| WifiQueue.WifiTx.ListClear | src/trans_wifi.c:106-140 | in-place stable partition: the queue is the non-discardable buffers in order with correct head and tail, each discardable one is unlinked and recycled once |
| WifiQueue.DiscardTable | src/trans_wifi.c:118 | which buffers a clear discards, kind by kind: packet-pool frames, CONFIG commands, scan probe requests, nothing else |
| WifiQueue.WifiTx.WifiSendCmd | src/trans_wifi.c:235-278 | the kind of the command buffer follows the command; it goes to the back, or to the front for a test command, after a clear for a disconnect |
| WifiQueue.CommandThenDisconnect | src/trans_wifi.c:243-277 | of two commands in a row a disconnect recycles the first if and only if it is CONFIG, and is itself queued last |
| WifiQueue.WifiTx.WifiSendData | src/trans_wifi.c:280-288 | a frame is appended; a null one is refused |
| WifiSend.Stamped | src/trans_wifi.c:167-172 | stamping a command packet changes type, SYNC flag and number, and nothing else the target reads |
| WifiSend.CommandOnWire | src/trans_wifi.c:240-261 | the target reads back command id, length, arguments and number of what wifi_send_cmd built |
| WifiSend.DataOnWire | src/trans_wifi.c:173-191 | the target reads back type, length, number and payload of a data frame, and traffic identifier, access category, encryption and key at bytes 4 to 7 |
| WifiSend.FrameWindowsIff | src/trans_wifi.c:168-222 | whatever its length, a frame gets exact windows in all its transfers if and only if the block size is a multiple of 512, 0 included |
| WifiSend.SentWindowsIff | src/trans_wifi.c:168-222 | the same for the frames that are not given up for their length, among block sizes that are powers of two |
| WifiSend.EveryIdTakesNumber | src/trans_wifi.c:216 | the condition as written holds for every command id |
| WifiSend.WifiSender.BuildFrame | src/trans_wifi.c:163-191 | the send buffer holds the frame, and the send length is its length rounded to the block size of the target |
| WifiSend.WifiSender.CheckCredit | src/trans_wifi.c:199-213 | the frame passes if and only if it fits the 512-byte buffers of the credit read, which is 0 after a failed read; then the grants cover it |
| WifiSend.WifiSender.WaitForCredit | src/trans_wifi.c:198-214 | the same for the polling loop, which ends at the first poll whose credit covers the frame |
| WifiSend.WifiSender.NumberFrame | src/trans_wifi.c:216-218 | under the condition as written the frame gets the next number whatever its command, and is otherwise unchanged |
| WifiSend.WifiSender.Transmit | src/trans_wifi.c:216-223 | the numbered frame is what goes out; the number is spent even when the transfer fails |
| WifiSend.WifiSender.WaitAndSend | src/trans_wifi.c:198-223 | a built frame is sent once the credit covers it; it still waits only when the last poll saw too little |
| WifiSend.WifiSender.SendFrame | src/trans_wifi.c:163-223 | one turn of the send loop: given up if and only if too long, what is sent, under which number, why it still waits or fails, and that the use of credit stays within the grants |
| SdioCounters.BuffersCover | src/ext_sdio_adapter.c:424 | the number charged for a packet is the least number of 512-byte buffers that hold it |
| SdioCounters.CheckPassesIff | src/trans_wifi.c:206 | the credit check passes if and only if the credit seen, in bytes, covers the packet |
| SdioCounters.TotalTxResidue | src/ext_sdio_adapter.c:449-454 | the transmit counter is the true used count modulo 4096, whatever the packet sizes |
| SdioCounters.OneSubtractionSuffices | src/ext_sdio_adapter.c:450-453 | one conditional subtraction gives the canonical residue if and only if the sum is below twice the modulus |
| SdioCounters.TotalTxCanonical | src/ext_sdio_adapter.c:424-454 | with packets of at most 4096 buffers the counter is the used count reduced modulo 4096 |
| SdioCounters.CreditsExact | src/ext_sdio_adapter.c:313-326 | the reported credit is granted minus used, if and only if that lies in [0, 4096) |
| SdioCounters.RxExact | src/ext_sdio_adapter.c:343-347 | the reported length is produced minus consumed, if and only if that lies below 2^20, also after the host counter has wrapped |
| SdioCounters.CreditCheckSound | src/trans_wifi.c:206-213 | passing the check implies the grants cover the packet, in buffers and in bytes, for all lengths, if and only if they cover what has been used or fall short by a multiple of 4096 |
| SdioTransfers.ByteTransfersStep | src/ext_sdio_adapter.c:38-50 | one round of the byte loops appends exactly its transfer |
| SdioTransfers.PassGrows | src/ext_sdio_adapter.c:427-447 | one pass of a packet loop appends exactly its transfers |
| SdioTransfers.TransfersCover | src/ext_sdio_adapter.c:383-409 | at most two transfers carry the buffer in order without gap or overlap, and at most three bytes more |
| SdioTransfers.TransferFlags | src/ext_sdio_adapter.c:383-447 | every transfer of function 1 increments its address, every transfer of function 2 goes to address 0; whole blocks come first, in block mode |
| SdioTransfers.TransfersExpressible | src/ext_sdio_adapter.c:427-447 | every transfer is one that CMD53 can express, if and only if the packet is shorter than 512 blocks |
| SdioTransfers.WindowsExactIff | src/ext_sdio_adapter.c:425-447 | receive windows are always exact, send windows if and only if the length is below 512 or a multiple of 512 |
| SdioTransfers.SmallPacket | src/ext_sdio_adapter.c:425-441 | a short aligned packet is one byte-mode transfer that ends at the end address |
| SdioLink.SdioHost.WriteBytes | src/ext_sdio_adapter.c:54-78 | a success issues the transfers of the byte loop, in order |
| SdioLink.SdioHost.WriteBlocks | src/ext_sdio_adapter.c:95-108 | one block-mode transfer, or refusal of an unaligned size |
| SdioLink.SdioHost.SendPass | src/ext_sdio_adapter.c:433-443 | one pass of the send loop |
| SdioLink.SdioHost.SendPacket | src/ext_sdio_adapter.c:418-456 | a success issues the transfers of the packet and charges the buffers it needs; an error is one failed transfer, charges nothing, and has sent at most the block part |
| SdioLink.SdioHost.CountSent | src/ext_sdio_adapter.c:449-454 | the counter keeps standing for the true used count |
| SdioLink.SdioHost.GetBufferSize | src/ext_sdio_adapter.c:313-326 | the credit reported is granted minus used modulo 4096, at the moment of the read |
| SdioLink.SdioHost.ReadChunk | src/ext_sdio_adapter.c:42-49 | one transfer stores what the card delivered and nothing outside |
| SdioLink.SdioHost.ReadStep | src/ext_sdio_adapter.c:42-49 | a further transfer extends the delivered part of the stream |
| SdioLink.SdioHost.ReadPass | src/ext_sdio_adapter.c:38-50 | one round of the byte loop extends both the list of transfers and the delivered part of the stream |
| SdioLink.SdioHost.ReadBytes | src/ext_sdio_adapter.c:28-52 | the bytes inside the window at the address are the next bytes of the stream |
| SdioLink.SdioHost.GetRxDataSize | src/ext_sdio_adapter.c:328-349 | on function 1, produced minus delivered modulo 2^20; on function 2, the last three bytes of the register as they lie in memory, high byte first |
| SdioLink.SdioHost.PollLength | src/ext_sdio_adapter.c:359-372 | polling ends with a positive length, one failed access, or a timeout after exactly as many empty reads as milliseconds allowed, and at least one |
| SdioLink.SdioHost.FetchPass | src/ext_sdio_adapter.c:383-404 | one pass of the receive loop delivers its part of the stream |
| SdioLink.SdioHost.FetchBlocks | src/ext_sdio_adapter.c:389-391 | the block part delivers its bytes of the stream, or none when the packet does not fit the window |
| SdioLink.SdioHost.FetchTail | src/ext_sdio_adapter.c:392-401 | the tail delivers its bytes of the stream |
| SdioLink.SdioHost.ReceivePass | src/ext_sdio_adapter.c:383-408 | the same as a step of the whole packet |
| SdioLink.SdioHost.ReceivePacket | src/ext_sdio_adapter.c:380-409 | the buffer holds the next bytes of the stream; the error held before the loop is always overwritten |
| SdioLink.SdioHost.TakePacket | src/ext_sdio_adapter.c:375-415 | the packet is delivered and counted; the receive counter stays true if and only if the packet fits the window |
| SdioLink.SdioHost.TakeShown | src/ext_sdio_adapter.c:375-415 | of the bytes announced, those that fit the buffer are delivered; the error set for the cut is overwritten |
| SdioLink.SdioHost.GetPacket | src/ext_sdio_adapter.c:351-416 | a success returns min(available, size) bytes, the next ones of the stream, and keeps the counters true if and only if they fit the window; a truncated read succeeds and the error set for it is never returned; on a timeout nothing was there at the last look and nothing has changed; any other error is one failed access |
| SdioLink.PacketTakesAvailable | src/ext_sdio_adapter.c:375-415 | exactly when the length register is not ambiguous does a call return min(available, size); the backlog falls by that much, arrivals aside |
| SdioLink.CountedWrong | src/ext_sdio_adapter.c:387-413 | a packet longer than the window leaves the receive counter off from what was delivered |
| SdioLink.StreamReconstruction | src/ext_sdio_adapter.c:351-416 | over any run of calls whose packets fit the window, of any sizes, the buffers concatenate to the stream of the target |
| TargetRom.WriteCmdDecodes | src/esp_sip.c:105-112 | the target decodes the command the host laid out |
| TargetRom.WriteStores | src/esp_sip.c:105-113 | one such transfer stores its payload at its address and changes nothing else |
| MemoryWrite.ChunkFits | src/esp_sip.c:95-103 | chunks are full except the last, which ends at the rounded length |
| MemoryWrite.ChunkDecoded | src/esp_sip.c:91-113 | every command fits 256 bytes, is a multiple of four, ends at the end address, carries the next number and writes the stretch after the one before |
| MemoryWrite.ChunksWriteBlock | src/esp_sip.c:91-115 | all commands together leave target memory as one write of the rounded block would |
| SipLayer.BuildCmd | src/esp_sip.c:41-61 | the buffer is the command packet with sequence number 0, and what lies behind it follows |
| SipLayer.CmdIsOneTransfer | src/esp_sip.c:61-64 | a small command of whole words is one transfer that ends at the end address |
| SipFormat.CommandReadBack | src/esp_sip.c:45-61 | a command reads back as a control packet with its id, its length, number 0 and its arguments |
| SipLayer.InitOnWire | src/esp_sip.c:134-144 | INIT carries number 0, the open flag and bytes 8 to 135 of the table, and then what lies behind its structure |
| SipLayer.AnswersTable | src/esp_sip.c:169 | only TARGET_ON is answered, and only in the two states before INIT |
| SipLayer.BootupRoundTrip | src/esp_sip.c:119-130 | the host takes over the block sizes, the credit reserve, the signed noise floor and the MAC address the target put into a bootup event |
| SipLayer.CoexRoundTrip | src/esp_sip.c:194-201 | the three coexistence values come out as the target put them in |
| SipLayer.EspSip.PrepareRaw | src/esp_sip.c:79-86 | the boot buffer is there and stamped, or memory ran out |
| SipLayer.EspSip.CutChunk | src/esp_sip.c:95-103 | a round takes its chunk of what remains, rounded up to four at the end, and leaves the rest |
| SipLayer.EspSip.WriteChunk | src/esp_sip.c:92-114 | one round sends exactly its chunk and takes one number |
| SipLayer.EspSip.WriteAll | src/esp_sip.c:88-116 | the loop sends the chunks in order, all of them if and only if it succeeds |
| SipLayer.EspSip.WriteMem | src/esp_sip.c:69-117 | the whole call: the chunks sent, the numbers taken, and each error |
| SipLayer.EspSip.CountCmd | src/esp_sip.c:51-57 | BOOTUP resets both counters, INIT takes a number, other commands neither |
| SipLayer.EspSip.SendCmd | src/esp_sip.c:33-67 | for any command, a success is the transfers of its packet and of what lies behind it; the counters change even when it cannot be sent |
| SipLayer.EspSip.AnswerTargetOn | src/esp_sip.c:171-175 | INIT is sent from SEND_INIT, and WAIT_BOOTUP follows only on success |
| SipLayer.EspSip.PostInit | src/esp_sip.c:119-130 | block sizes, credit reserve, sign-extended noise floor and MAC address are taken from the bootup event |
| SipLayer.EspSip.FinishBoot | src/esp_sip.c:181-189 | the boot buffer is given up, the event is taken over, the state is RUN |
| SipLayer.EspSip.ParseEvents | src/esp_sip.c:161-213 | which event changes the state, sends INIT, gives the semaphore and takes over the event, or passes the coexistence state on; the call itself is recorded, and INIT stays out only for lack of memory or one failed transfer |
| TransRecv.HandlerTable | src/trans_recv.c:68-83 | type 0 goes to the event handler, types 1 and 2 to Wi-Fi if it is built in, everything else nowhere |
| TransRecv.TransRecv.Deliver | src/trans_recv.c:68-83 | a control packet does to the SIP layer what its event says, a data packet reaches sip_rx_process with its place and length, anything else does nothing |
| TransRecv.TransRecv.ParseOne | src/trans_recv.c:56-83 | one round: length check first, then the number, which is spent either way, then delivery to its handler |
| TransRecv.TransRecv.ParseRound | src/trans_recv.c:55-92 | a round stops with the outcome of the specification and every delivery handled, or goes on with what is left and the next number |
| TransRecv.TransRecv.ParseReceived | src/trans_recv.c:54-93 | the loop delivers and numbers as the recursive specification says, its handlers have done in order what the deliveries ask for, and it terminates on every chain |
| TransRecv.TransRecv.HandleIntr0 | src/trans_recv.c:46-94 | a read of all that is there, up to 32768 bytes, then its chain and what its events do; a short read delivers nothing and changes nothing, an empty one has a cause |
| ReceiveChain.EncodedIsSound | priv_include/sip2_common.h:161-169 | a header that announces the right length makes a packet the round trip is about |
| ReceiveChain.ChainRoundTrip | src/trans_recv.c:54-93 | any non-empty chain of packets numbered on from rxseq is delivered packet by packet, in order, to the right handlers, and counted |
| ReceiveChain.ParseNumbers | src/trans_recv.c:59-67 | whatever the bytes, deliveries carry consecutive numbers and at most one more is spent |
| ReceiveChain.ParseTiles | src/trans_recv.c:85-91 | whatever the bytes, deliveries tile the data, and the parse succeeds exactly when they reach its end |
| ReceiveChain.ParseFailsIff | src/trans_recv.c:59-67 | the parse fails if and only if the deliveries stop short of the data, and then at a header with length 0 or no multiple of four, or with another number |
| ReceiveChain.NoDuplicateOrReorder | src/trans_recv.c:59-67 | over any run of batches the unwrapped numbers delivered strictly increase, and numbers spent are deliveries plus mismatches |
| ReceiveChain.BatchDeliversIff | src/trans_recv.c:59-67 | a batch delivers something if and only if its first length is acceptable and the lag of the host is a multiple of 2^32 |
| ReceiveChain.NothingDeliveredIff | src/trans_recv.c:59-67 | over any run of batches nothing is delivered if and only if the host is never in step with the target, and then it takes one number per acceptable first length |
| ReceiveChain.LossIsPermanent | src/trans_recv.c:63-67 | a host that is behind by less than 2^32 delivers nothing and its lag does not shrink |
| ReceiveChain.LossHappens | src/trans_recv.c:59-67 | a run in which a refused packet leaves the host behind |
| ReceiveStream.RunRoundTrip | src/trans_recv.c:54-93 | over any run of reads that each carry a chain numbered on from the one before, one delivery per packet, in order, with its bytes and number |
| ReceiveStream.ReadExactIff | src/trans_recv.c:55-92 | a read that starts with a packet in step hands out exactly what was read if and only if it ends with a packet |
| ReceiveStream.RunExactIff | src/trans_recv.c:46-94 | over any run of reads of the stream, every read hands out exactly what was read if and only if every read ends with a packet, and then the packets of the target are dispatched one by one |
| ReceiveStream.CutPacketDelivered | src/trans_recv.c:85-91 | a packet cut behind its header is handed out with a length beyond the data, and the read succeeds |
| ReceiveEvents.CallsOfChain | src/trans_recv.c:68-83 | esp_sip_parse_events is called for exactly the control packets of a chain, each where it starts, sip_rx_process for exactly its data packets, both in order |
| ReceiveEvents.CallsOfRun | src/trans_recv.c:46-94 | the same over any run of reads |
| ReceiveEvents.DataChangesNothing | src/trans_recv.c:73-80 | a chain without control packet changes nothing in the SIP layer |
| ReceiveEvents.ChainBoots | src/esp_sip.c:180-191 | the last bootup event of a chain, whatever stands around it, leaves the state at RUN, the boot buffer freed, and the SIP layer with what the target put into that event |
| ReceiveEvents.ChainAnswersIff | src/esp_sip.c:166-179 | without bootup event a TARGET_ON in the chain is answered if and only if the state waits for it, once, by INIT on the card and WAIT_BOOTUP, or by SEND_INIT for lack of memory or a failed transfer |
| Firmware.DownloadBlock | src/ext_boot.c:135-144 | one block of the image is written, padding included, and no other address changes |
| Firmware.DownloadBlocks | src/ext_boot.c:129-148 | the walk leaves at every address what the blocks written so far say, and ends at the offset of the specification |
| Firmware.FwDownload | src/ext_boot.c:118-151 | a wrong magic number writes nothing; a success leaves at every address what the blocks say; only memory writes are sent |
| Firmware.Bootup | src/esp_sip.c:215-241 | the boot command, the reset of the counters and the state that follow it; the call succeeds if and only if it is acknowledged, and each error has its cause |
| Firmware.FwInit | src/ext_boot.c:153-175 | the boot command is sent only after the whole download and the start of the receive task succeeded; the call succeeds if and only if all that did and the wait was acknowledged, and each error has its cause |
| Firmware.BootOnWire | src/esp_sip.c:217-223 | the boot command carries number 0, the entry address and the flag that discards the link |
| Firmware.BootIsNoWrite | src/esp_sip.c:218-223 | the boot command is no memory write, so that order shows in the transfers |
| FirmwareImage.ImageIsWalkable | src/ext_boot.c:129-148 | a serialised image is walked block by block and ends at 24 plus the sum of (8 + data_len) |
| FirmwareImage.LastCoverDecides | src/esp_sip.c:97-112 | an address holds what the last rounded range that covers it reads from the image |
| FirmwareImage.BlockLoads | src/ext_boot.c:134-148 | a byte of a block that no later rounded range covers is at its address |
| FirmwareImage.OutsideUntouched | src/ext_boot.c:134-148 | nothing outside the rounded ranges changes |
| ImageDownload.ByteLoadsIff | src/esp_sip.c:97-112 | a byte of a block arrives if and only if the last rounded range over its address reads that byte from the image |
| ImageDownload.ImageArrivesIff | src/ext_boot.c:118-151 | every byte of every block is in memory if and only if no block loses a byte to a later one; outside all ranges nothing changes |
| ImageDownload.LaterDataWins | src/esp_sip.c:97-112 | an image arrives whole when no later rounded range reaches into earlier data |
| ImageDownload.DisjointIsHarmless | src/ext_boot.c:118-151 | disjoint rounded ranges are enough |
| ImageDownload.FailingImage | src/esp_sip.c:97-112 | an image with the right magic number, block count and disjoint data, which every successful download leaves with a wrong byte in memory |
| ImageDownload.DownloadImage | src/ext_boot.c:118-151 | the call on an image: end offset, every byte of every block, every untouched address |
| LinkSafety.StepInv | src/trans_wifi.c:155-231 | every step of every task keeps the mutex, boot, numbering, credit, buffer and wake-up invariants |
| LinkSafety.RunInv | src/trans_wifi.c:155-231 | they hold in every state of every run |
| LinkSteps.BootChanges | src/esp_sip.c:215-241 | what a step of the boot task changes, and that the mutex changes hands only where it enters and leaves |
| LinkSteps.RecvChanges | src/trans_recv.c:46-172 | the same for the receive task |
| LinkSteps.WifiChanges | src/trans_wifi.c:155-231 | the same for the Wi-Fi send task, both mutexes |
| LinkTheorems.CreditSafety | src/trans_wifi.c:198-222 | every packet of the send task fits the 512-byte buffers granted and not used before it, in any interleaving |
| LinkCredit.UsedExactly | src/ext_sdio_adapter.c:449-454 | what is used since the start is one buffer for the boot command, one for INIT, if they went out, and what the packets of the send task needed |
| LinkCredit.CheckDecides | src/trans_wifi.c:199-213 | a check reads the credit of that moment, and lets the packet through if and only if it fits that many buffers |
| LinkCredit.SentFit | src/trans_wifi.c:193-196 | only frames within the send buffer are sent, and the task aborts only on a longer one |
| LinkCredit.StateTells | src/esp_sip.c:169-176 | once a TARGET_ON has been dealt with, the state tells whether INIT went out |
| LinkTheorems.GaplessNumbers | src/esp_sip.c:51-57 | INIT goes out at most once and before any Wi-Fi packet; Wi-Fi packets carry 1, 2, 3, ... |
| LinkTheorems.LockDiscipline | src/trans_recv.c:46-111 | every transfer is under the mutex, no task requests it while holding it, each mutex is owned by exactly the task inside its section, nobody owns both |
| LinkTheorems.BufferConservation | src/trans_wifi.c:51-231 | every inserted buffer is in exactly one place, once, and lost only when the send task has stopped |
| LinkOrder.QueueOrder | src/trans_wifi.c:51-104 | of two queued buffers the one in front stays in front, is sent first if both are, and is not overtaken, over any run |
| LinkOrder.InsertPlace | src/trans_wifi.c:79-104 | at the step a submitted buffer enters the queue it stands behind all that are queued, or before them if it was submitted for the head |
| LinkOrder.ClearTakesEffect | src/trans_wifi.c:263-275 | a buffer submitted with a clear finds none of the discardable buffers that were queued at its submission |
| LinkOrder.DroppedByClear | src/trans_wifi.c:106-140 | what is recycled without having been sent may be discarded and was dropped by a clear that a submission asked for |
| LinkOrder.FinalPlaces | src/trans_wifi.c:106-231 | what is reported done was sent and has a callback, what is recycled was sent without one or dropped as discardable, and everything else is queued, in hand, sent or lost |
| LinkTheorems.NoLostWakeup | src/trans_wifi.c:46-104 | outside the list lock a non-empty queue has its bit set, so the task can only wait on an empty one |
| LinkService.WokenByBit | src/trans_wifi.c:46-67 | the send task goes to the queue only from its wait and only when its bit is set |
| LinkService.SleepsWhenEmpty | src/trans_wifi.c:61-64 | a removal that finds nothing leaves the bit cleared, so the task sleeps until a producer wakes it |
| LinkService.InterruptServed | src/trans_recv.c:97-172 | when the receive task waits again it has read the packet, read the Bluetooth packet and taken the Bluetooth credit, each if the interrupt asked for it |
| LinkService.OnlyWhatIsAsked | src/trans_recv.c:97-172 | and it does none of these unless an interrupt asked for it |
| LinkTheorems.GiveFailsIff | src/esp_sip.c:223-238 | the boot semaphore is missing when given if and only if it is not yet created or already deleted |
| LinkTheorems.GiveEndsWait | src/esp_sip.c:187-232 | a give ends the wait of the boot task: it can go on at once, and still can until it does |
| LinkTheorems.DeleteFailsIff | src/esp_sip.c:235-238 | the boot task deletes a semaphore that was never created if and only if the boot command could not be sent |
| LinkTheorems.AnsweredIff | src/esp_sip.c:167-178 | a TARGET_ON is answered if and only if the state has been set and none was answered before |
| LinkTheorems.LostTargetOn | src/esp_sip.c:223-224 | a run in which TARGET_ON comes before the state is set, is ignored, and boot times out |
| LinkTheorems.WaitInVain | src/esp_sip.c:225-238 | on an empty semaphore only the timeout is left to the boot task |
| LinkTheorems.EarlyBootup | src/esp_sip.c:223-225 | a run in which the bootup report is lost because the semaphore does not exist yet, and boot times out in state RUN |
| LinkRelease.OwnersRelease | src/trans_recv.c:35-44 | the owner of a mutex always has a step it can take, at most three of its own remain, each brings the release nearer and no other task sets it back |
| LinkRelease.OutOwnsNothing | src/trans_recv.c:35-44 | a task that is outside owns neither mutex |
| BluetoothGate.TokensBalance | src/trans_bt.c:54-92 | semaphore, token in hand, packets, dropped messages and tokens spent without a message make one plus the accepted gives, so packets never exceed that |
| BluetoothGate.CountsAreTrue | src/trans_bt.c:44-106 | the gives accepted are those that found the slot empty, the messages accepted those that found room in the queue |
| BluetoothGate.PacketsInOrder | src/trans_bt.c:66-106 | the packets are exactly the messages not dropped, in queue order, numbered 0, 1, 2, ...; dropped is what has no data or finds no memory |
| TransBt.SbpRoundTrip | src/trans_bt.c:77-81 | the other side reads back length, number and payload |
| TransBt.BtTx.HandleMessage | src/trans_bt.c:70-91 | what one message becomes: skipped, dropped for lack of memory, or one numbered packet on function 2, with the bytes behind its exact allocation |
| CreditInterrupt.CreditPathDisciplined | src/trans_recv.c:113-128 | the mutex is used correctly if and only if both register accesses succeed, and covers the read if and only if the clear succeeds |

## Left out

- GPIO, LDO, SDMMC slot and card initialisation, CCCR and register-window setup: register writes without a deep property.
- FreeRTOS, the heap allocator, `esf_buf` internals: mutexes, event bit, queue and semaphores are abstract steps, allocation failure is a parameter, recycling is recorded.
- `sip_rx_process`, `coex_schm_status_set`, the HCI callbacks and `net80211_en_txdq` are calls into code outside the repository; that they are called, with what and in which order is recorded, their effect is not modelled.
- Kconfig: the Wi-Fi build is modelled; `TransRecv` takes the Wi-Fi option as a field, `Firmware.Bootup` and `LinkSystem` assume it.
- The window semantics of the card (an address END - m delivers at most m bytes of the stream) are an assumption about the target, as is that it numbers its packets consecutively and reports bootup only after INIT.
- SdioLink.StreamReconstruction: a packet longer than the window, which no caller in the repository asks for, is outside its runs; what happens then is stated by `SdioLink.SdioHost.GetPacket`.
- WifiSend.SentWindowsIff: the block sizes are powers of two; for others the limit of the send buffer decides which lengths are sent at all, and `WifiSend.FrameWindowsIff` is stated without it.
- SdioLink.SdioHost.SendPacket: a failed transfer is taken to leave nothing at the target; which transfers came before it is stated.
- SipLayer.EspSip.SendCmd: the command and its header are taken to be shorter than 65536 bytes, the width of the length the source computes.
- Firmware.Bootup: the outcome of the ten-second wait is a parameter; creating, giving, taking and deleting the semaphore are steps of `LinkSystem`.
- TransRecv.TransRecv.ParseReceived: a packet whose announced length exceeds what was read is delivered with that length, as in the source; what its handler then reads is not modelled. The buffer is taken to be readable 25 bytes past the data.
- Firmware.FwDownload: the image is taken to be readable up to the rounded end of its last block, because the source walks it without bounds; the effect on memory is stated for blocks that do not wrap around the 32-bit address space.
- WifiSend.WifiSender.WaitForCredit: the loop of the source waits for ever; here the number of polls is a parameter, because its end depends on the target.
- WifiSend.WifiSender.BuildFrame: requires that the frame fits the send buffer, which the source checks only after copying.
- WifiQueue.WifiTx.ListClear: the methods of the queue are the bodies of critical sections; their interleaving is that of `LinkSystem`, where a queue operation is one step.
- LinkTheorems.LockDiscipline: register accesses of the credit interrupt are taken to succeed; what happens otherwise is `CreditInterrupt.CreditPathDisciplined`. The end of the receive task after a failed interrupt read is a run that goes no further.
- TransBt.BtTx.HandleMessage: an array stands for an allocation and the bytes behind it, which are parameters; so it is in `SipLayer` for commands.
- LinkTheorems.GaplessNumbers: incrementing a sequence counter is one step, although the source increments without a lock; INIT is counted before the Wi-Fi task exists, so the two never meet.
- ReceiveChain.NoDuplicateOrReorder: the statement is about the time between two boot resets; the boot task resetting the counter while the receive task is between reading and writing it is not modelled.
- BluetoothGate.PacketsInOrder: a message is numbered when its packet is built; a failed transfer is only logged in the source and counts as submitted.
- Termination of waits, timing, task priorities, core pinning and logging.
