# BlueRetro protocol engines in Dafny

BlueRetro connects Bluetooth controllers to retro consoles. Around its hardware drivers sit small
stateful engines: checksums and codecs for console buses, the pairing state machine, a slot queue
shared by two cores, memory-card caches, a HID descriptor parser, the button mapping. This project
models those engines and proves what they are there for. Hardware appears as a trace: bytes clocked,
bits on a line, items of a pulse buffer, events delivered, samples of an input pin.

Each engine has a specification in functions and lemmas. Where the source changes things in place, a
class or method in the same form (arrays, fields, loops) is proved to compute exactly that
specification. `dafny verify dfyconfig.toml` checks everything; there are no assumptions.

| files | engine |
|---|---|
| `Bytes` | bytes, their bits, XOR sums |
| `NsiCrc`, `NsiCodec`, `NsiPak` | N64 controller line: table CRC, pulse encoding, controller-pak commands |
| `SmpCrypto`, `SmpPairing`, `SmpRandom`, `SmpCompletion`, `SmpHost` | LE legacy pairing over the shared controller queues |
| `SlotPool`, `QueueBss` | the two-queue slot pool, by interleaved steps and as the queue's own calls |
| `AclReassembly` | L2CAP recombination |
| `LinkKeys` | the 16-entry key table and its replacement index |
| `MemoryCard`, `PsCard`, `PsIdent`, `PsPort` | block cache with write-back; the PlayStation card protocol on top of it |
| `SegaMultitap` | Genesis multitap packing and the three-wire handshake |
| `GameId`, `GamePaths` | in-place substring removal, and what it makes of a path |
| `JvsUart` | JVS framing with byte stuffing |
| `Maple` | Maple checksum and bit-loss repair |
| `HidItems`, `HidReports`, `HidFields`, `HidMeaning`, `HidParser` | HID report descriptors: items, reports, what each field adds, HID's own reading, the parser itself |
| `AdapterMapping`, `AdapterTraces`, `AdapterMapper` | mapping of buttons and axes; where each outcome comes from |
| `PortAllocator` | Bluetooth devices to wired ports |
| `KbMonitor` | keyboard edges and typematic repeat |

## Where the code does not do what one would expect

Each of these is a lemma that says exactly when the expectation holds.

- A merged HID bitfield loses its last 32 bits when its count is a multiple of 32 above 32
  (`HidReports.FragmentsTile`).
- HID Push and Pop restore the globals only within four levels. What a frame sets stays inside it if and only if no
  Push of the frame was lost for want of room (`HidReports.PopRestoresIff`); with o of them lost and that many levels
  outside, the globals o levels further out come back (`HidReports.PopRestoresUnlessFull`). Four pushes at the start
  are one too many (`HidReports.FourthPushIsLost`).
- HID restores the Report ID at a Pop as well, the parser does not: its Report ID is HID's throughout if and only if no
  Pop changes it (`HidMeaning.IdsAreHid`, `HidMeaning.IdStaysAfterPop`).
- A Maple frame that lost eight bits is noticed only when its first address differs from its length
  byte (`Maple.WholeByteNoticed`), and the byte repair then takes the following byte
  (`Maple.RepairOfWholeByte`).
- The N64 CRC misses two flipped bits exactly when they are a multiple of 127 positions apart
  (`NsiCrc.TwoBitErrors`).
- A JVS frame after garbage is lost exactly when the garbage ends in an odd number of MARK bytes
  (`JvsUart.RoundTrip`).
- With bank selection 4 or above, a card write is not marked for write-back (`MemoryCard.UnpersistedWrite`).
- The write-back stops in exactly three cases, each with no callback and no other notification on its way: a callback
  cannot open the card file; a write's notification is dropped because feedback is muted or its queue is full; or the
  last notification is handled when there is no timer to start (`MemoryCard.LiveUnlessLost`). Only a write whose
  notification is taken restarts it (`MemoryCard.RestartsOnHeardWrite`).
- The timer exists only if the bank selection was below 4 at the start. Without it nothing ever reaches the card file,
  also when a bank below 4 is selected later (`MemoryCard.NothingStoredWithoutTimer`, `MemoryCard.StoredIfTimer`).
- A PlayStation write frame that is broken off before its checksum is committed if and only if the checksum of the last
  write frame equals byte 134 of the receive buffer, and broken off after its first byte only if the last command was a
  write; the rest of the sector then comes from the buffer (`PsCard.AbortedWrite`). On a fresh port it always is
  (`PsCard.FreshPortOverwrites`).
- A game ID that begins with a `c` and has fewer than seven characters is handed on as thirteen bytes from the twelfth
  byte of the receive buffer on (`PsIdent.GameIdHandedOn`).
- `kbmon_get_code` reads a slot's length after giving the slot back. What it reads is the length stored there last
  (`SlotPool.LateRead`); it is sure to be right if and only if no more enqueues get a slot meanwhile than there are
  free slots before it, 30 for a scan-code queue that was just emptied (`SlotPool.LateReadBound`,
  `SlotPool.ScanCodeRead`).
- `queue_bss_return` answers -1 when it succeeds (`QueueBss.Queue.Return`).
- Substring removal is a single pass, and text can close up into a new occurrence. One pass is enough for every
  string if and only if the pattern repeats one character (`GameId.RemovalComplete`), which of the nine patterns only
  the last three do (`GameId.CompletePatterns`); after all of them only `cdrom:` can be left
  (`GameId.NoPathMarks`, `GameId.PrefixSurvives`).
- `replace_char` with a NUL only ever hits the first match, so the game ID ends there
  (`GameId.ReplaceChar`).

## Model

| member | source | states |
|---|---|---|
| NsiCrc.TableIsPower | main/wired/nsi.c:76-93 | entry i of the 256-byte table is x^(263-i) modulo x^8+x^7+x^2+1 |
| NsiCrc.TableSumIsRegister | main/wired/nsi.c:76-93 | after any number of bits the table sum is the long-division register moved to the end of the block |
| NsiCrc.TableSumIsRemainder | main/wired/nsi.c:76-93 | for every 32-byte payload the XOR of the entries of its set bits is the CRC-8 remainder |
| NsiCrc.ShortTableSum | main/wired/nsi.c:138-160 | for a shorter message it is the CRC-8 of the message padded with zeros to 32 bytes |
| NsiCrc.BurstDetected | main/wired/nsi.c:76-93 | two messages that differ within eight neighbouring bits never have the same CRC |
| NsiCrc.EqualEntries | main/wired/nsi.c:76-93 | two table entries are equal if and only if their distance is a multiple of 127 |
| NsiCrc.TwoBitErrors | main/wired/nsi.c:76-93 | two flipped bits are missed if and only if they are a multiple of 127 positions apart |
| NsiCodec.PulseShape | main/wired/nsi.c:26-28 | a bit takes eight ticks, low first: six for a zero, two for a one |
| NsiCodec.LevelsOfPulses | main/wired/nsi.c:26-28 | every bit sent as a pulse item is read back as that bit |
| NsiCodec.SentCrcIsRemainder | main/wired/nsi.c:335-336 | starting at 0xFF and sending the complement gives the CRC-8 with initial value 0 |
| NsiCodec.BytesToItemsCrc | main/wired/nsi.c:138-160 | the items are the pulses of the bits, then the stop item; nothing else changes; the CRC is the running sum over the same bits |
| NsiCodec.ShiftedInBits | main/wired/nsi.c:190-196 | after up to eight shifts the low bits of a byte are the received bits, whatever it held |
| NsiCodec.ItemsToBytes | main/wired/nsi.c:184-201 | the bytes stored have the levels of the items as their bits, whatever the buffer held before |
| NsiCodec.ItemsCrc | main/wired/nsi.c:203-220 | the receiver's CRC is the running sum over the levels of the items |
| NsiCodec.AckIsRemainder | main/wired/nsi.c:339-343 | whatever items come in, the check byte sent back is the CRC-8 of the 32 bytes they decode to |
| NsiCodec.AckOfWindow | main/wired/nsi.c:339-343 | if only bits within eight neighbours can differ, it is the sender's CRC-8 if and only if they arrived right |
| NsiCodec.AckOfTwoFlips | main/wired/nsi.c:339-343 | with two bits flipped it is the sender's CRC-8 if and only if they are 127 or 254 places apart |
| NsiCodec.WireRoundTrip | main/wired/nsi.c:138-201 | decoding the pulses of a message gives that message and no other |
| NsiPak.Pak.ReadCommand | main/wired/nsi.c:308-338 | the answer on the line is the 32 bytes of the flat card that channel, bank and address name, their CRC-8 and the stop item |
| NsiPak.Pak.WriteCommand | main/wired/nsi.c:339-376 | the acknowledgement is the CRC-8 of the received data; the card, rumble state and feedback change as command and accessory say |
| NsiPak.ReadsItsPak | main/wired/nsi.c:308-334 | channel c with bank n reads the 32 bytes at ((c+n) mod 4)*32768 + 256*hi + 32*(lo/32) of the flat card; past the pak or from a rumble pak zeros, or 0x80 for its ID while it is on |
| NsiPak.WritesItsPak | main/wired/nsi.c:346-376 | a write changes exactly those 32 bytes, and only as a memory pak |
| NsiPak.PaksAreApart | main/wired/nsi.c:308-376 | with one bank selection no write of one controller shows in any read of another |
| NsiPak.NextBank | main/wired/nsi.c:326-327 | the next bank of a channel is what channel c+1 mod 4 reads |
| NsiPak.ReadAfterWrite | main/wired/nsi.c:308-376 | a pak block reads back as written, every other block as before |
| SmpCrypto.Xor128 | main/bluetooth/smp.c:32-38 | byte-wise XOR of two 16-byte blocks |
| SmpCrypto.C1MeetsSpec | main/bluetooth/smp.c:40-74 | with the code's little-endian layout the value computed is c1 of Bluetooth Core Vol 3 Part H section 2.2.3, for any block cipher |
| SmpCrypto.S1MeetsSpec | main/bluetooth/smp.c:76-92 | likewise s1 of section 2.2.4 |
| SmpPairing.StepKeepsAligned | main/bluetooth/hci.c:1319-1348 | every event, including a full queue, keeps each queued context in step with the controller command it belongs to |
| SmpPairing.AnswersReachTheirRequests | main/bluetooth/hci.c:1773-1794 | over any run of any devices each answer reaches the callback of the request that asked for it |
| SmpPairing.StepKeeps | main/bluetooth/smp.c:94-126 | one event keeps every device's view of its pairing in step with the messages sent so far |
| SmpPairing.RunKeepsInv | main/bluetooth/smp.c:249-287 | that invariant holds after every prefix of every interleaving |
| SmpPairing.PairingIsCorrect | main/bluetooth/smp.c:94-287 | in every interleaving the random value sent is the one the confirm value (c1) committed to, and encryption starts with s1 of the two random values exchanged |
| SmpRandom.StepRandom | main/bluetooth/smp.c:94-106 | a device's random value changes only by an answer to its own command, and only in the half asked for |
| SmpRandom.RandomIsOwn | main/bluetooth/hci.c:1773-1783 | after any prefix of a run it is made of the last answers to the device's own two requests |
| SmpRandom.OwnRandomCommitted | main/bluetooth/smp.c:94-126 | the confirm value sent commits to those two answers, both of which have come in, and the random value sent later is made of the same |
| SmpCompletion.KeysAreUsed | main/bluetooth/smp.c:123-126 | on any conforming run, for every device: encryption is started once, in order, for every random value of the peer whose request found room, with s1 of it and the one sent, less the one whose command is outstanding |
| SmpCompletion.ConfirmsAreSent | main/bluetooth/smp.c:98-121 | in the same way one confirm value (c1 of the two answers and the parameters exchanged) is sent for every answered second half that found room |
| SmpCompletion.RandomsAreSent | main/bluetooth/smp.c:265-272 | every confirm value of the peer is answered with one random value, made of the device's own two answers |
| SmpCompletion.HalvesAreAnswered | main/bluetooth/smp.c:252-264 | every response that found room for two requests has its second half answered once, or outstanding |
| SmpHost.PairingHost.constructor | main/bluetooth/hci.c:1244-1256 | starts with empty queues and nothing on the air |
| SmpHost.PairingHost.RequestRandom | main/bluetooth/hci.c:1319-1332 | pushes the callback and issues the command, or does neither and fails when the queue is full |
| SmpHost.PairingHost.RequestEncrypt | main/bluetooth/hci.c:1334-1348 | the same for an encryption, with its key and plaintext |
| SmpHost.PairingHost.PairingStart | main/bluetooth/smp.c:235-247 | the request of the device is recorded and sent, nothing else changes |
| SmpHost.PairingHost.HandleResponse | main/bluetooth/smp.c:252-264 | the response is recorded and two random halves are requested |
| SmpHost.PairingHost.HandleConfirm | main/bluetooth/smp.c:265-272 | the device's random value is sent |
| SmpHost.PairingHost.HandleRandom | main/bluetooth/smp.c:273-288 | the key derivation is requested on the two random values |
| SmpHost.PairingHost.RandomHalf | main/bluetooth/smp.c:94-96 | the first eight bytes of the device's random value change |
| SmpHost.PairingHost.RandomComplete | main/bluetooth/smp.c:98-106 | the last eight bytes, and the first stage of c1 is requested |
| SmpHost.PairingHost.ConfirmFirstPart | main/bluetooth/smp.c:108-116 | the second stage is requested on the first stage's result |
| SmpHost.PairingHost.RandCommandComplete | main/bluetooth/hci.c:1773-1783 | the context at the head of the queue is taken and its callback runs |
| SmpHost.PairingHost.EncryptCommandComplete | main/bluetooth/hci.c:1784-1794 | the same for encryptions: confirm sent, or encryption started with the result |
| SlotPool.StepKeepsPartition | components/queue_bss/queue_bss.c:83-143 | after every atomic step each slot is in exactly one of free queue, producer's hand, item queue, consumer's hands |
| SlotPool.RoomLeft | components/queue_bss/queue_bss.c:100-142 | whoever holds a slot finds room in the ring it goes to |
| SlotPool.HandIsExclusive | components/queue_bss/queue_bss.c:83-111 | the slot being filled is neither queued nor lent out |
| SlotPool.OnlyTheHandChanges | components/queue_bss/queue_bss.c:102-103 | bytes and length change only in the slot the producer holds |
| SlotPool.StepKeepsInv | components/queue_bss/queue_bss.c:83-143 | places, contents and order survive every step of either side |
| SlotPool.EveryInterleaving | components/queue_bss/queue_bss.c:24-143 | in any interleaving payloads arrive in order with their bytes and length, lent slots keep their contents, publishing and returning never fail |
| SlotPool.ReceiveDelivers | components/queue_bss/queue_bss.c:113-129 | a receive delivers the oldest payload sent and not received, and puts its slot on loan |
| SlotPool.FourSteps | components/queue_bss/queue_bss.c:83-111 | an undisturbed enqueue is take, copy, size, publish and its second-stage enqueue has room |
| SlotPool.LateRead | main/adapter/kb_monitor.c:94-108 | after any interleaving the length read from a returned slot is the one stored in it last, or the one it had |
| SlotPool.LateReadIsSafe | main/adapter/kb_monitor.c:94-108 | a slot at place j of the free ring keeps length and bytes while at most j enqueues get a slot |
| SlotPool.LateReadRaces | main/adapter/kb_monitor.c:94-108 | from any state, also in the middle of an enqueue, j + 1 further ones can leave any length in it |
| SlotPool.LateReadBound | main/adapter/kb_monitor.c:94-108 | so from any state n enqueues meanwhile are harmless in every interleaving if and only if n is at most j |
| SlotPool.ScanCodeRead | main/adapter/kb_monitor.c:46 | for the scan-code queue of 32 slots after its only item was returned, that bound is 30 |
| QueueBss.Queue.constructor | components/queue_bss/queue_bss.c:24-77 | every slot but the last starts in the free ring |
| QueueBss.Queue.Enqueue | components/queue_bss/queue_bss.c:83-111 | with a fitting item and a free slot it is the four steps; otherwise nothing changes and it fails |
| QueueBss.Queue.Dequeue | components/queue_bss/queue_bss.c:113-129 | the slot at the head with its bytes and length, now on loan |
| QueueBss.Queue.Return | components/queue_bss/queue_bss.c:131-143 | the slot goes back to the free ring, and the answer is -1 |
| AclReassembly.Reassembler.AclHandler | main/bluetooth/host.c:310-335 | the in-place handler is the recombination function of buffer, offset and size |
| AclReassembly.OnePdu | main/bluetooth/host.c:310-335 | however a PDU is split, exactly one dispatch, on the last fragment, identical to the unfragmented packet |
| AclReassembly.EveryPduInOrder | main/bluetooth/host.c:310-335 | any sequence of fragmented PDUs comes out complete and in order |
| LinkKeys.KeyTable.StoreLeLtk | main/bluetooth/host.c:664-681 | the found or replacement slot gets address and key; the index moves only when its own slot was used |
| LinkKeys.KeyTable.StoreLeIdent | main/bluetooth/host.c:682-698 | the same for the identification |
| LinkKeys.KeyTable.ClearLe | main/bluetooth/host.c:637-646 | every entry of the address is zeroed, no other changes |
| LinkKeys.KeyTable.LoadLe | main/bluetooth/host.c:648-662 | answers with the last entry of the address, or fails |
| LinkKeys.AddressesStayUnique | main/bluetooth/host.c:637-698 | no history of stores and clears files one address twice |
| LinkKeys.StoreThenLoad | main/bluetooth/host.c:648-698 | a lookup gives what was stored; other devices are untouched or the one at the replacement index is evicted |
| LinkKeys.ClearThenLoad | main/bluetooth/host.c:637-662 | a cleared device is gone, all others load as before |
| LinkKeys.ClearForgets | main/bluetooth/host.c:637-646 | address, key and identification of every entry of the device become zeros, nothing else changes |
| LinkKeys.LtkThenIdent | main/bluetooth/host.c:664-698 | key and identification of one device land in one slot and no other slot changes |
| LinkKeys.SurvivesFifteenStores | main/bluetooth/host.c:664-698 | an entry just filed is still in its slot after any fifteen stores and any clears of others |
| LinkKeys.NewcomerIsFiled | main/bluetooth/host.c:664-698 | a new device is found with its key after fifteen further stores of other devices |
| LinkKeys.NewStores | main/bluetooth/host.c:664-698 | up to fifteen stores of devices new at their time leave a fresh entry alone and move the index once each |
| LinkKeys.SixteenthEvicts | main/bluetooth/host.c:664-698 | after fifteen such stores a newcomer is found with its key; the sixteenth evicts it and nobody else |
| MemoryCard.WriteRefinesFlat | main/adapter/memory_card.c:177-191 | a block-local write is a write to one flat 128 KiB array |
| MemoryCard.ReadRefinesFlat | main/adapter/memory_card.c:173-175 | a block-local read is a read of that array |
| MemoryCard.StepKeepsSynced | main/adapter/memory_card.c:95-191 | a clear dirty bit means file block equals RAM block, and a step breaks that if and only if it is an unmarked write that changes its block |
| MemoryCard.RunKeepsSynced | main/adapter/memory_card.c:95-191 | so over every run without such a write, with any I/O outcome and bank selection, it holds |
| MemoryCard.LowBanksMark | main/adapter/memory_card.c:177-191 | a bank selection that stays below 4 leaves no write unmarked |
| MemoryCard.UnpersistedWrite | main/adapter/memory_card.c:177-191 | without persistence a write keeps that if and only if the block was dirty already or does not change |
| MemoryCard.LiveUnlessLost | main/adapter/memory_card.c:31-38 | while something is dirty a callback or notification is on its way, except exactly after a failed open, a dropped write notification or one handled without a timer, with none to come |
| MemoryCard.RestartsOnHeardWrite | main/adapter/adapter.c:487-492 | a stopped write-back has something on its way again if and only if a persistent write's notification is taken |
| MemoryCard.RunLive | main/adapter/memory_card.c:95-191 | over a whole run: a callback or notification is on its way unless something was lost and no write was heard since |
| MemoryCard.NothingStoredWithoutTimer | main/adapter/memory_card.c:146-163 | without the timer no run of any writes, bank selections and notifications changes the file or clears a dirty bit |
| MemoryCard.StoredIfTimer | main/adapter/memory_card.c:146-191 | a write after bank n below 4 was selected reaches the file through its notification and a callback if and only if the timer was created at the start |
| MemoryCard.DrainsOneByOne | main/adapter/memory_card.c:95-130 | each successful callback cleans one block and re-arms the timer until none is left |
| MemoryCard.Drained | main/adapter/memory_card.c:95-130 | exactly as many callbacks as dirty bits make the file equal the RAM |
| MemoryCard.Store.Read | main/adapter/memory_card.c:173-175 | the bytes of the addressed block |
| MemoryCard.Store.Write | main/adapter/memory_card.c:177-191 | the new state of RAM, dirty bits and notifications, the last only if feedback is not muted and its queue has room |
| MemoryCard.Store.HandleNotice | main/adapter/memory_card.c:168-170 | a notification handled arms the timer, if there is one |
| MemoryCard.Store.StoreSpread | main/adapter/memory_card.c:95-130 | one callback writes the lowest dirty block, or reports failure and keeps its bit |
| MemoryCard.Store.StoreWhole | main/adapter/memory_card.c:72-93 | for any outcome of open and of each block: the blocks before the first failure are in the file; 0 and no dirty bits only if all went through |
| MemoryCard.StoredWhole | main/adapter/memory_card.c:72-93 | after a complete store file and RAM agree |
| PsCard.WriteFrame | main/wired/ps_spi.c:648-685 | a complete write frame: replies, acknowledgements, and the card written if and only if the checksum matches |
| PsCard.ReadFrame | main/wired/ps_spi.c:607-634 | a complete read frame returns address, sector, checksum and 0x47, acknowledges all but the last byte, and leaves the card alone |
| PsCard.FrameRefinesStore | main/wired/ps_spi.c:591-777 | every complete frame is one operation of a 1024-sector block store, whatever earlier frames left in the buffers |
| PsCard.SessionRefinesStore | main/wired/ps_spi.c:591-893 | over any sequence of complete frames the card is that block store; the new-card flag shows only in the first |
| PsCard.CommitTouches | main/wired/ps_spi.c:757-766 | a write frame changes exactly its own sector, and only with a matching checksum |
| PsCard.LastCommitted | main/wired/ps_spi.c:591-777 | a sector reads as the last committed write to it, or as it was when there is none |
| PsCard.AbortedWrite | main/wired/ps_spi.c:734-777 | a write frame given up after any number of bytes: whether it is committed, to which sector and with which mix of new and stale data |
| PsCard.FreshPortOverwrites | main/wired/ps_spi.c:908-928 | given up right after its address on a fresh port, it overwrites the sector with the initial buffer |
| PsIdent.Identified | main/wired/ps_spi.c:635-647 | an identification frame is answered with the flag and 5A 5D 5C 5D 04 00 00 00, all but the last byte acknowledged, the card untouched |
| PsIdent.GameIdHandedOn | main/wired/ps_spi.c:600-606 | a game-ID frame of any length is acknowledged to its end, and of the ID at most 13 characters are handed on, from the eighth if it begins with a c; shorter than seven such an ID is lost |
| PsIdent.NotAnswered | main/wired/ps_spi.c:785-893 | a frame for another device, or for a disabled card, of any length, gets no acknowledgement and leaves the card alone; a disabled card is flagged new afterwards |
| PsPort.PortState.constructor | main/wired/ps_spi.c:908-928 | starts idle with the initial receive buffers and checksum 0 |
| PsPort.PortState.SpiIsr | main/wired/ps_spi.c:785-893 | one byte exchange in place is the exchange of the protocol model, also for frames of devices it ignores |
| PsPort.PortState.McHandle | main/wired/ps_spi.c:591-692 | the card's handler in place, with its refusals |
| PsPort.PortState.End | main/wired/ps_spi.c:734-777 | the end of a frame commits, passes a game ID on, clears the flag and swaps the receive buffers as the model says |
| SegaMultitap.FillNibbles | main/wired/sega_io.c:408-424 | masking a byte in keeps the nibble already placed and puts the new one beside it |
| SegaMultitap.Multitap.PutDevice | main/wired/sega_io.c:402-449 | on either parity a device adds exactly its 2, 3, 6 or 0 nibbles |
| SegaMultitap.Multitap.Pack | main/wired/sega_io.c:393-458 | the buffer read as nibbles is two zeros, four IDs, all contributions in order, and one 0xF if the count is odd |
| SegaMultitap.PacketIsReadable | main/wired/sega_io.c:393-458 | the ID nibble of each port tells its kind and how many nibbles follow, and those are its buttons with turbo mask, or flags and axes |
| SegaMultitap.MouseAxes | main/wired/sega_io.c:138-181 | sign bits and axis bytes are the nine-bit saturated movement, other flags untouched |
| SegaMultitap.Link.TxNibble | main/wired/sega_io.c:183-192 | the four data lines carry the nibble |
| SegaMultitap.Link.WaitFor | main/wired/sega_io.c:221-229 | a wait succeeds if and only if the request line reaches its level within the timeout with select low |
| SegaMultitap.Link.TwhTx | main/wired/sega_io.c:216-273 | the beats seen are the nibbles in order with alternating TL, as many as waits are answered; extra cycles repeat the last |
| SegaMultitap.CompleteOnce | main/wired/sega_io.c:216-273 | the console's lines determine how many |
| SegaMultitap.WholePacket | main/wired/sega_io.c:216-273 | beat n is nibble n of the packet with TL at n mod 2, then the last nibble again |
| GameId.RemovalByPieces | main/tools/ps1_gameid.c:10-26 | removal glues the pieces between the leftmost non-overlapping occurrences; the pieces hold none and give back the string with the pattern in between |
| GameId.RemoveAll | main/tools/ps1_gameid.c:10-26 | the in-place overlapping moves compute that removal, and later searches see the original text |
| GameId.ReplaceChar | main/tools/ps1_gameid.c:28-35 | every occurrence is replaced; with NUL the string ends at the first |
| GameId.Sanitize | main/tools/ps1_gameid.c:37-48 | the nine removals and two replacements in order |
| GameId.SanitizedIsClean | main/tools/ps1_gameid.c:37-48 | the result has no slash, backslash, dot, underscore or semicolon |
| GameId.OnlyBeforeSemicolon | main/tools/ps1_gameid.c:37-48 | nothing from the first semicolon of the input on has any part in the result |
| GamePaths.NameIsLeft | main/tools/ps1_gameid.c:37-48 | of a path on the disc, whatever of the six directories and whatever version, the file name is left without dots and with dashes for underscores |
| GameId.RemovalComplete | main/tools/ps1_gameid.c:10-26 | one pass leaves no occurrence in any string if and only if all characters of the pattern are equal |
| GameId.UniformGoes | main/tools/ps1_gameid.c:10-26 | a pattern of one repeated character never closes up |
| GameId.ClosesUp | main/tools/ps1_gameid.c:10-26 | for every other pattern, an occurrence put into another one leaves the pattern itself |
| GameId.CompletePatterns | main/tools/ps1_gameid.c:37-48 | of the nine patterns exactly the three single characters are removed for good |
| GameId.NoPathMarks | main/tools/ps1_gameid.c:37-48 | yet no pattern but the first can be left in a sanitized name |
| GameId.PrefixSurvives | main/tools/ps1_gameid.c:37-48 | a name from which the first one is left |
| JvsUart.WriteFifo | main/wired/jvs_uart.c:77-98 | the wire carries SYNC, the stuffed payload and the sum |
| JvsUart.ReadFifo | main/wired/jvs_uart.c:47-75 | payload and verdict are those of the byte-wise receiver, including an escape that swallows the checksum |
| JvsUart.FrameReceived | main/wired/jvs_uart.c:47-98 | after any garbage the payload comes through if and only if no escape is open, and then the checksum is right |
| JvsUart.EscapeOpen | main/wired/jvs_uart.c:59-68 | an escape is open if and only if the bytes end in an odd number of MARKs |
| JvsUart.StuffedIs | main/wired/jvs_uart.c:83-91 | exactly 0xE0 and 0xD0 are escaped, as 0xD0 and the byte less one |
| JvsUart.FrameIs | main/wired/jvs_uart.c:77-98 | a frame is 0xE0, the escaped payload, and the payload's sum modulo 256 |
| JvsUart.RoundTrip | main/wired/jvs_uart.c:47-98 | reading what was written, after any garbage: the original payload with a right checksum, exactly unless an odd number of MARKs precedes |
| JvsUart.NoSyncInside | main/wired/jvs_uart.c:83-91 | a stuffed payload contains no SYNC |
| Maple.FixByteShifts | main/wired/maple.c:75 | the expression of the macro equals its two shifts taken one place at a time, for shifts 1 to 8 |
| Maple.FixByteBits | main/wired/maple.c:75 | bit by bit, what the repair takes from each of the two bytes, for shifts 1 to 8 |
| Maple.RepairRestores | main/wired/maple.c:75 | with 1 to 7 bits lost every byte from index 1 on is restored, whatever the stale low bits |
| Maple.RepairOfWholeByte | main/wired/maple.c:75 | with 8 lost the repair gives the next byte, so it is right if and only if the two are equal |
| Maple.HeaderRecovered | main/wired/maple.c:347-387 | with 0 to 7 bits lost, bad_frame is 8 less the loss (or 0) and command and addresses are those sent |
| Maple.WholeByteNoticed | main/wired/maple.c:366-387 | a lost byte is noticed if and only if the first address differs from the length |
| Maple.BlockWriteRecovered | main/wired/maple.c:572-646 | function code, block, phase and all 128 bytes for the card survive a loss of up to 7 bits |
| Maple.Transmit | main/wired/maple.c:199-279 | the wire carries the payload and then its XOR, which is also what is returned |
| Maple.Receive | main/wired/maple.c:299-347 | the buffer holds the line's bits and its old bits after them; crc is the XOR of all whole bytes but the last |
| Maple.MissedBits | main/wired/maple.c:299-347 | the buffer after a frame whose first bits were missed is the one the repair assumes |
| Maple.ChecksumAgrees | main/wired/maple.c:256-341 | on an intact frame the saved crc, the last byte and the XOR of the others are one value |
| HidItems.ReadsBack | main/adapter/hid_parser.c:402-625 | an item written with any of its tags and widths, signed or not, is read as that item |
| HidItems.ReadIsCode | main/adapter/hid_parser.c:402-625 | and whatever is read as an item is one of those encodings of it |
| HidItems.DecodesBack | main/adapter/hid_parser.c:401-625 | every sequence of items, each with any tag and width, followed by anything, is read back as that sequence |
| HidItems.ItemAt | main/adapter/hid_parser.c:401-625 | every item advances the cursor by one to five bytes |
| HidReports.PopRestores | main/adapter/hid_parser.c:592-616 | Push, anything balanced within four levels, Pop: all globals of all levels below are what they were |
| HidReports.PopRestoresIff | main/adapter/hid_parser.c:592-616 | for any balanced body of any depth: a Report Size before the Pop has no effect after it, whatever its value, if and only if no Push was lost |
| HidReports.PopRestoresUnlessFull | main/adapter/hid_parser.c:592-616 | with o pushes lost and at least o levels outside, Pop restores the globals o levels further out; with fewer it leaves the stack at the bottom |
| HidReports.FourthPushIsLost | main/adapter/hid_parser.c:592-616 | a frame of four pushes from the bottom is one level short, and a Report Size inside it stays in force |
| HidReports.FieldWidth | main/adapter/hid_parser.c:501-545 | whatever the branch, a field takes size times count bits |
| HidReports.FragmentsTile | main/adapter/hid_parser.c:507-535 | fragments of a merged bitfield tile it if and only if its count is not a multiple of 32 above 32 |
| HidReports.FragmentsOrdered | main/adapter/hid_parser.c:507-535 | fragments never overlap or leave the field |
| HidReports.AddFieldOrdered | main/adapter/hid_parser.c:501-545 | one field adds its bits and keeps all usages ordered, disjoint and inside |
| HidReports.ControlPlacement | main/adapter/hid_parser.c:501-545 | the i-th control, if used, gets an entry with its usage, its own bits and the globals in force |
| HidReports.RunTracks | main/adapter/hid_parser.c:401-625 | after every prefix: usage list, report ID, bit totals, usages and closed reports are those the items add up to under the parser's stack |
| HidReports.ReportsAreTheFields | main/adapter/hid_parser.c:551-648 | every report has the ID and kind of its items, a length that is the bits of its fields in whole bytes, and exactly their usages, ordered, disjoint and inside |
| HidMeaning.GlobalsAreHid | main/adapter/hid_parser.c:592-616 | within four levels size, count, minimum, maximum and page in force at every item are those of HID's own unbounded stack (HID 1.11 section 6.2.2.7) |
| HidMeaning.BitsAreHid | main/adapter/hid_parser.c:497-550 | and so is every bit total |
| HidMeaning.SameIdStep | main/adapter/hid_parser.c:551-616 | an item parts the parser's Report ID from HID's if and only if it is a Pop that puts another one in force |
| HidMeaning.IdsAreHid | main/adapter/hid_parser.c:551-616 | they are the same after every item if and only if there is no such Pop |
| HidMeaning.IdStaysAfterPop | main/adapter/hid_parser.c:551-616 | a descriptor after which they differ |
| HidFields.UsedByPage | main/adapter/hid_parser.c:169-227 | the usages made use of, page by page |
| HidFields.CollectionsByPage | main/adapter/hid_parser.c:30-167 | the usages that name a collection, page by page |
| HidFields.LocalsAre | main/adapter/hid_parser.c:420-438 | place p of the usage list holds the usage listed there last since the last Input or Output, and the count is that since the last main item |
| HidFields.FieldsAdd | main/adapter/hid_parser.c:497-550 | over every descriptor: an Input or Output adds entries exactly if it is not Constant, neither its page nor its first usage is 0xFF and fewer than 24 are there; then one for each used control, in order, with the i-th usage (or the only one) and its own bits, or the pieces of a merged field |
| HidFields.EveryControlListed | main/adapter/hid_parser.c:501-545 | every used control of every field taken since the last Report ID has its entry in the report, at its own bits |
| HidFields.EveryFragmentListed | main/adapter/hid_parser.c:507-535 | and so has every piece of a merged bitfield |
| HidFields.OneAxis | main/adapter/hid_parser.c:358-648 | the descriptor of one axis of eight bits gives one report of one byte with that axis |
| HidParser.Parser.Global | main/adapter/hid_parser.c:411-494 | globals, Push and Pop change the stack as specified |
| HidParser.Parser.AddFragments | main/adapter/hid_parser.c:507-535 | the in-place entries are the fragments, the other report untouched |
| HidParser.Parser.AddControls | main/adapter/hid_parser.c:501-545 | the loop over the controls computes the specified entries and offset |
| HidParser.Parser.FieldItem | main/adapter/hid_parser.c:497-550 | an Input or Output item, shown or skipped, and the cleared usage list |
| HidParser.Parser.IdItem | main/adapter/hid_parser.c:551-585 | a Report ID closes the pending reports and starts new ones |
| HidParser.Parser.Parse | main/adapter/hid_parser.c:358-648 | the whole parser in place terminates and yields the specified reports, also when it gives up half-way |
| AdapterMapping.RangePositive | main/adapter/adapter.c:108-118 | the divisor of the LINEAR scale is positive |
| AdapterMapping.LinearWithinRange | main/adapter/adapter.c:108-125 | on the LINEAR path the magnitude is at most the destination's range times perc_max/100 |
| AdapterMapping.FrozenEntry | main/adapter/adapter.c:66-216 | what one entry does does not depend on the entries before it |
| AdapterMapping.ButtonsAreUnions | main/adapter/adapter.c:131-145 | final buttons and map masks are the unions over the entries |
| AdapterMapping.AxesArePeaks | main/adapter/adapter.c:122-131 | the final magnitude of every axis is the largest among its start and all contributions |
| AdapterMapping.Calibrated | main/adapter/adapter.c:84-101 | source calibrations end at the larger of the old one and the value, in the directions read |
| AdapterMapping.OrderFree | main/adapter/adapter.c:193-216 | reordering or repeating entries changes no button, no map mask, no touched output and no axis magnitude |
| AdapterTraces.AxisOfItsButtons | main/adapter/adapter.c:238-334 | an ID belongs to exactly the axis whose button mask has it |
| AdapterTraces.AxisRoundTrip | main/adapter/adapter.c:336-372 | the ID of an axis leads back to that axis, for all sixteen |
| AdapterTraces.AxisIsTraced | main/adapter/adapter.c:66-216 | a final axis value and its turbo setting are what they were, or those of the first of the entries that push furthest, and none pushes further; an entry pushes by what its source has past its dead zone (or all the way), scaled, the way its destination names |
| AdapterTraces.MovesAsNamed | main/adapter/adapter.c:374-409 | a value that was moved lies the way the destination ID of such an entry names, and its source is a button down or an axis deflected the way its own ID names (with ranges and dead zones that are not negative) |
| AdapterTraces.FullDeflection | main/adapter/adapter.c:108-125 | at the end of its range a source puts a LINEAR destination at perc_max of the end of its own |
| AdapterTraces.ButtonIsTraced | main/adapter/adapter.c:133-150 | a bit is set, or marked as mapped, exactly if it was or some entry does so; its turbo setting is that of the last entry that sets it |
| AdapterTraces.KindIsTraced | main/adapter/adapter.c:102-104 | whether an axis is relative is taken from the last entry that looks at its source |
| AdapterTraces.RaisesItsSide | main/adapter/adapter.c:84-101 | a calibration is moved on the side the source ID names |
| AdapterTraces.TouchedAre | main/adapter/adapter.c:193-216 | which outputs are reported as touched |
| AdapterMapper.Mapper.MapFromAxis | main/adapter/adapter.c:66-150 | the axis path in place is one step of the model |
| AdapterMapper.Mapper.MapFromButton | main/adapter/adapter.c:152-191 | the button path likewise, including its early exit |
| AdapterMapper.Mapper.Mapping | main/adapter/adapter.c:193-216 | the loop is the fold over the entries and reports the touched outputs |
| PortAllocator.AssignPorts | main/system/manager.c:270-299 | the k-th device gets the k-th empty port, then port_cnt plus the rest |
| PortAllocator.EmptiesList | main/system/manager.c:281-288 | the empty ports in ascending order, none missing |
| PortAllocator.PortsAreDistinct | main/system/manager.c:270-299 | assignments strictly increase |
| PortAllocator.PortIsFree | main/system/manager.c:270-299 | never an occupied port, and below 12 with at most four ports |
| PortAllocator.NothingIsSkipped | main/system/manager.c:270-299 | the ports given out are exactly the empty ones and every number from port_cnt on |
| PortAllocator.KthPort | main/system/manager.c:270-299 | every such port below that of device k goes to a device before it |
| PortAllocator.EmptyPortsFirst | main/system/manager.c:270-299 | no device sits past the ports while an empty one is unassigned |
| KbMonitor.StepKeeps | main/adapter/kb_monitor.c:28-79 | every report, timer and setting keeps events, key states and timer consistent |
| KbMonitor.RunReplays | main/adapter/kb_monitor.c:28-79 | over any run with a fixed map each mapped key's strokes alternate and replay to its state, repeats are of held keys, an armed timer's key is down |
| KbMonitor.ReportSends | main/adapter/kb_monitor.c:53-79 | a report with any map sends one press or release for each mapped key that changed, in ascending order, and nothing else |
| KbMonitor.TimerRuns | main/adapter/kb_monitor.c:63-73 | over any run the timer runs if and only if the last stroke is a press sent under typematic, and its key is that one |
| KbMonitor.TimerRepeats | main/adapter/kb_monitor.c:28-33 | each time it goes off it sends exactly that press once more and runs on |
| KbMonitor.Monitor.OnReport | main/adapter/kb_monitor.c:53-79 | the scan over all keys in place is the model's update |
| KbMonitor.Monitor.OnTimer | main/adapter/kb_monitor.c:28-33 | one repeat, and the timer runs again |

## Left out

- Register set-up, interrupts, delays, core stalls, LEDs, power handling: only bytes, bits and events are kept.
- FreeRTOS, esp_timer, NVS, SPIFFS and liblfds711 are not part of this model: queues are bounded rings, a timer is an armed flag, the card file is 32 blocks.
- AES is an arbitrary function of key and block, and controller commands complete successfully in the order they were issued.
- The key distribution messages after pairing (main/bluetooth/smp.c:128-151 and from line 295 on) and the parameters of the pairing request: field filling.
- The peer's confirm value is not checked by the source, so nothing is claimed about who the peer is; peers are assumed to send pairing messages in protocol order.
- Fragments of different connections do not interleave, since the source has one recombination buffer, and the length in the ACL header is the length of the data.
- SmpPairing.PairingIsCorrect: a pairing started again on a device record whose earlier answers are still to come is excluded by `Conforms`.
- The BR/EDR link-key table (main/bluetooth/host.c:609-635): same search and replacement with a single record per entry.
- `mc_init` and `mc_restore` (main/adapter/memory_card.c): first reading or creating the card file. The dirty mask is a set of block numbers, and the write-back of a block is one step.
- MemoryCard.Store.StoreWhole: says nothing about the file from the first failed block on, because where later blocks land is up to the file system.
- PlayStation frames with an address of 0x400 or more, and read or game-ID frames given up half-way: the handler's branches are modelled, no theorem speaks of them.
- PsPort.PortState.SpiIsr: frames for the controller, and bytes past the end of the 144-byte buffers, which the source indexes without a check.
- PsPort.PortState.McHandle: bytes past the end of those buffers.
- PsPort.PortState.End: the controller's half of packet_end; the game ID it returns is what goes to the best-effort feedback queue.
- The controller, keyboard and mouse commands of the N64 port and all GameCube commands: status bytes copied to the line.
- Saturn devices, turbo masks, frame counters and the clearing of relative mouse axes on the Sega ports.
- Maple: waveforms and time-outs within a bit. The receive loop leaves only between the two bits of a turn, so the number of bits it has is odd; the repair lemmas hold for any loss.
- Maple requests other than the header fields and the block write, and JVS commands above the framing.
- HID: quirk patches and report-type detection (main/adapter/hid_parser.c:229-356), allocation failures, the freeing of reports, the ten-slot report table. The parser is proved for descriptors whose reports have at most 24 usages, as its tables need, and its totals for less than 2^32 bits.
- HidMeaning.GlobalsAreHid: HID's table has no Usage Maximum, which is a local item there; the parser stacks it with the globals and never clears it, and nothing is claimed about it.
- HidParser.Parser.Parse: requires that every report fits its table of 24 usages, because the source indexes that table without a check.
- AdapterMapping: signs of equal magnitudes, turbo masks and the relative flag depend on the order of entries, as `AdapterTraces` says, and are not claimed order-free; floats are reals, so float rounding is not modelled.
- AdapterMapping.Run: requires that an axis source only maps to an axis destination that has an axis, because the source does not check that on the axis path.
- The state of wired ports is one snapshot per pass (main/system/manager.c), and LEDs, hot-plug masks and feedback are left out.
- KbMonitor: delays and rates of the repeat, and the scan-code queue, which is `QueueBss`.
- Constant tables, configuration migration, monitor output, OTA and file commands.
