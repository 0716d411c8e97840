# A verified model of the RK3128 TV box firmware tools

The repository holds the boot loader, flashing tools, kernel patches and helpers of an RK3128 TV box.  This project
models its self-contained algorithms and state machines in Dafny and proves what they are for.  Each component is a
module:

- **Kermit** (`Kermit`, `KermitSession`, `KermitLink`, `KermitReplies`,
  `KermitDamage`, `KermitReceiver`): the serial file receiver.  It writes data to memory before
  it knows whether a packet is good, and relies on a checkpoint and on sequence numbers.  The receiver is given as a
  machine over single bytes; a class with the source's variables and loops is proved to compute the same runs, and
  exactly-once delivery is proved over whole sessions.  Compare section 6 (Packet Format) of the Kermit Protocol Manual,
  Sixth Edition.
- **S-records** (`Srec`, `SrecBoard`, `SrecDamage`): dumping memory as text and loading it back, down to the characters.
- **Shadow framebuffer** (`Shadow`, `ShadowDevice`): drawing goes to a shadow buffer and a worker copies the damage to
  the screen.  Coherence is an invariant of every interleaving of draws and single copied bytes.
- **RAM test** (`RamTest`): the memory test over faulty memory with aliased addresses and stuck bits.
- **Rockchip CRCs** (`CrcBits`, `RkCrcTables`, `RkCrc16`, `RkCrc32`, `RkCrc`, `RkImage`): tables against bitwise loops,
  burst detection over shift registers of bits, sealing, verifying and downloading images.
- **MTD** (`Mtd`), **NOR** (`Nor`, `NorErase`), **EFI memory map** (`Efi`), **storage enumeration** (`StorageEnum`): walking around bad
  blocks, planning sector erases, merging the memory map in place, enumerating devices through a cookie.
- **GPT list** (`Gpt`, `GptFields`) and **RSCE image** (`Rsce`, `Utf8`): printers and parsers that undo each other, and exactly when.
- **LED daemon** (`LedDaemon`) and **ARM flash checksum** (`AfsSum`).

State that the source updates in place is a class with `modifies` clauses, and every loop is a loop proved against a
function; the theorems are about these functions.  `Arith` holds two facts about division and `Options` the optional value.

Where the code does less than its documentation or callers expect, the code is modelled as it is and the exact
condition is proved:

- a correct image whose CRC is 0 is reported as failed (`SealedImageVerifies`);
- a packet that is rejected takes the acknowledged packet before it along, unless that one carried no data or LEN and
  SEQ are printable and SEQ is another number (`EarlyDamage`);
- a range that starts in the middle of a bad block loses pages (`FirstIsExact`);
- the EFI comparison orders two addresses only if they are less than 2^63 apart (`CompareIsOrderIff`), and so the memory
  table is sure to be ascending only then (`SortedIff`);
- an inactive storage device hides others (`EnumerationComplete`);
- the RAM test fails on good memory when the dummy word is the first tested word (`MemTestAlt`);
- an empty dump loads as 2 bytes (`DumpRoundTrip`);
- the partition list loses starts of 2^32 blocks and more, sizes that are not whole MiB and the bootable flag
  (`ListRoundTrip`);
- long names and names with NUL are cut, and a cut inside a character cannot be unpacked (`RoundTripIff`, `UnpackPack`);
- the erase planner accepts some ranges that start outside the sectors and selects nothing (`PlanIff`);
- a flapping carrier keeps the LED daemon from noticing that the system has booted (`BootIff`).

## Model

| member | source | states |
|---|---|---|
| `Kermit.CheckpointIsStable` | repos/u-boot-rk3128-tvbox/cmd/load.c:781-955 | on every byte stream whatever, the checkpoint never moves back and no byte below it is ever written again |
| `Kermit.RunConcat` | repos/u-boot-rk3128-tvbox/cmd/load.c:781-955 | the receiver may be fed its input in pieces: a run over a concatenation is the run over the second part from where the first part ended |
| `Kermit.FinishedIgnores` | repos/u-boot-rk3128-tvbox/cmd/load.c:838-839 | once the receiver has returned, further input changes nothing |
| `KermitSession.ExactlyOnce` | repos/u-boot-rk3128-tvbox/cmd/load.c:781-955 | for every session with LEN and SEQ intact, different successive sequence numbers, noise without START or ^C, and each packet delivered any number of times, damaged or intact, the last time intact: the receiver finishes, memory from the load address is exactly the unquoted data of the packets in order, and the result is its length |
| `KermitSession.FileTransfer` | repos/u-boot-rk3128-tvbox/cmd/load.c:653-686 | a file quoted with the prefix in force and split into data packets anywhere, even inside an escape pair, arrives byte for byte in any such session |
| `KermitLink.SenderTransfer` | repos/u-boot-rk3128-tvbox/cmd/load.c:694-743 | a whole transfer in the sender's terms: an S packet with its parameters, packets without data, and the file quoted with the sender's own prefix, or '#' if the S packet ends before it; the file arrives exactly in every session |
| `KermitLink.LinkIsSenders` | repos/u-boot-rk3128-tvbox/cmd/load.c:699-743 | for every sender and every length of its S packet the link gets NPAD from the third field, PADC from the fourth, EOL from the fifth and QCTL from the sixth, each with its default if the packet ends before it |
| `KermitLink.ReceiverLink` | repos/u-boot-rk3128-tvbox/cmd/load.c:694-743 | the same of the receiver's variables after such a packet has arrived |
| `KermitLink.UsualQuote` | repos/u-boot-rk3128-tvbox/cmd/load.c:742 | the usual S packet makes '#' the prefix |
| `KermitLink.OfferIs` | repos/u-boot-rk3128-tvbox/cmd/load.c:709-767 | the answer to an S packet, field by field, has as many fields as the packet, and all thirteen from ten on |
| `KermitLink.BlockCheckIs` | repos/u-boot-rk3128-tvbox/cmd/load.c:932 | the check is the sum with bits 6 and 7 added to its low six bits, as a printable character |
| `KermitLink.BitFlipDetected` | repos/u-boot-rk3128-tvbox/cmd/load.c:932 | a single flipped bit in a packet changes the block check |
| `KermitLink.ShortWire` | repos/u-boot-rk3128-tvbox/cmd/load.c:844-935 | an accepted short packet, character by character |
| `KermitLink.LongWire` | repos/u-boot-rk3128-tvbox/cmd/load.c:886-909 | an accepted long packet, with its length in two characters and the header check |
| `KermitLink.TypeCodes` | repos/u-boot-rk3128-tvbox/cmd/load.c:401-405 | the letters of the packet types |
| `KermitLink.CtrlC` | repos/u-boot-rk3128-tvbox/cmd/load.c:838-839 | ^C between packets ends the reception with 0 and changes nothing |
| `KermitSession.UnquoteQuote` | repos/u-boot-rk3128-tvbox/cmd/load.c:554-562 | unquoting inverts control quoting for every byte string, and every quoted character passes the control character test |
| `KermitSession.UnquoteConcat` | repos/u-boot-rk3128-tvbox/cmd/load.c:671-686 | the escape flag carried over makes unquoting independent of how the data is split |
| `KermitSession.RejectedRollsBack` | repos/u-boot-rk3128-tvbox/cmd/load.c:879-942 | a packet that is rejected after its header leaves address and escape flag at the checkpoint, and all bytes below it as they were |
| `KermitSession.OneDelivery` | repos/u-boot-rk3128-tvbox/cmd/load.c:832-952 | one delivery: whatever came before, the checkpoint from before the packet stays; an intact delivery leaves the packet absorbed exactly once, and a break packet ends the session |
| `KermitSession.OnePacket` | repos/u-boot-rk3128-tvbox/cmd/load.c:832-952 | any number of deliveries of one packet, the last one intact, absorb it exactly once |
| `KermitDamage.EarlyDamage` | repos/u-boot-rk3128-tvbox/cmd/load.c:844-876 | after a packet has been accepted and acknowledged, a packet with any LEN and SEQ is rejected anywhere: what the accepted packet brought survives if and only if it carried no data, or LEN and SEQ are printable and SEQ is not its number; otherwise the receiver is back in the state from before it |
| `KermitDamage.FirstPacketLost` | repos/u-boot-rk3128-tvbox/cmd/load.c:844-876 | the same from the start of a download, for every first packet |
| `KermitDamage.LetterArrives` | repos/u-boot-rk3128-tvbox/cmd/load.c:911-919 | the letter of that example is in memory after its packet |
| `KermitDamage.LetterLost` | repos/u-boot-rk3128-tvbox/cmd/load.c:867-870 | one letter, received and acknowledged, is gone after START and a control character, and after a rejected packet with the same number |
| `KermitDamage.AbsorbNothing` | repos/u-boot-rk3128-tvbox/cmd/load.c:911-919 | a packet leaves contents and escape flag as they were if and only if it is no data packet or an empty one |
| `KermitReplies.OneReply` | repos/u-boot-rk3128-tvbox/cmd/load.c:936-952 | every delivery is answered exactly once: an intact one with an ACK of its number under the link parameters after it, a damaged one with a NACK of its number |
| `KermitReplies.SessionAnswered` | repos/u-boot-rk3128-tvbox/cmd/load.c:781-955 | over every session the receiver sends exactly one reply to each delivery, in order, and nothing else |
| `KermitReplies.ReplyIsPacket` | repos/u-boot-rk3128-tvbox/cmd/load.c:583-607 | a reply is a well-formed packet with a right block check and the negotiated line end, so an intact packet of the protocol if and only if that line end is CR |
| `KermitReceiver.Receiver.Receive` | repos/u-boot-rk3128-tvbox/cmd/load.c:781-955 | the receiver with its variables and loops ends in the state, memory, replies and return value of the byte machine, for every input |
| `KermitReceiver.Receiver.DataLoop` | repos/u-boot-rk3128-tvbox/cmd/load.c:910-927 | the data loop refines the byte machine: it stores, keeps parameters or ignores each character, sums it, and stops at the first control character |
| `KermitReceiver.Receiver.Trailer` | repos/u-boot-rk3128-tvbox/cmd/load.c:928-952 | block check and line end: an error restores and sends a NACK, success acknowledges |
| `KermitReceiver.Receiver.LongLength` | repos/u-boot-rk3128-tvbox/cmd/load.c:886-909 | the extended length and its header check refine the byte machine |
| `KermitReceiver.Receiver.Header` | repos/u-boot-rk3128-tvbox/cmd/load.c:844-877 | LEN and SEQ: a new sequence number moves the checkpoint, a repeated one goes back to it |
| `KermitReceiver.Receiver.HandleSendPacket` | repos/u-boot-rk3128-tvbox/cmd/load.c:694-779 | the parameters of the S packet are taken over and answered as the byte machine does, whose fields `LinkIsSenders` and `OfferIs` pin down |
| `KermitReceiver.Receiver.DataCharacter` | repos/u-boot-rk3128-tvbox/cmd/load.c:671-686 | one data character is unquoted and stored |
| `KermitReceiver.Receiver.Checksum` | repos/u-boot-rk3128-tvbox/cmd/load.c:564-572 | the checksum loop computes the block check of the bytes |
| `KermitReceiver.Receiver.SendPacket` | repos/u-boot-rk3128-tvbox/cmd/load.c:574-607 | a reply is the padding and a frame with its block check; nothing else changes |
| `Srec.DumpRoundTrip` | repos/u-boot-rk3128-tvbox/cmd/load.c:131-201 | loading a dump at any offset puts the bytes at their addresses plus the offset, changes nothing else and reports the size, for every address and length without address wrap; an empty dump is reported as 2 bytes |
| `Srec.DumpRecords` | repos/u-boot-rk3128-tvbox/cmd/load.c:316-369 | the text of a dump reads back as a start record, its data records and an end record |
| `Srec.ChunksTile` | repos/u-boot-rk3128-tvbox/cmd/load.c:328-365 | the data records tile the range in order with 1 to 16 bytes each |
| `Srec.RecordSum` | repos/u-boot-rk3128-tvbox/cmd/load.c:341-356 | the bytes of every record add up to 0xFF modulo 256 |
| `Srec.RecordRoundTrip` | repos/u-boot-rk3128-tvbox/common/s_record.c:14-154 | the decoder gives back type, address and data of every well-formed record |
| `SrecDamage.DecodesIff` | repos/u-boot-rk3128-tvbox/common/s_record.c:144-151 | a record line with a right count decodes if and only if its bytes add up to 0xFF modulo 256, and otherwise to a checksum error |
| `SrecDamage.DamagedDumpAborts` | repos/u-boot-rk3128-tvbox/cmd/load.c:145-149 | a dump in which one data byte has been replaced makes the load answer that it was aborted, at any offset |
| `SrecDamage.UndamagedLines` | repos/u-boot-rk3128-tvbox/cmd/load.c:328-365 | the lines of that damaged dump are the lines of the dump, but for the byte |
| `SrecDamage.UnknownType` | repos/u-boot-rk3128-tvbox/common/s_record.c:82-83 | a record of an unknown type is refused |
| `SrecDamage.CutRecord` | repos/u-boot-rk3128-tvbox/common/s_record.c:134-147 | a record that ends early is refused |
| `SrecDamage.CountRecord` | repos/u-boot-rk3128-tvbox/common/s_record.c:65-68 | a count record has two address bytes and no data |
| `SrecDamage.ReadStops` | repos/u-boot-rk3128-tvbox/cmd/load.c:220-222 | NUL and ^C in a line stop the load |
| `SrecDamage.LongLineCut` | repos/u-boot-rk3128-tvbox/cmd/load.c:235-237 | a line of 516 characters is cut off and what follows is another line |
| `Srec.LoadCons` | repos/u-boot-rk3128-tvbox/cmd/load.c:152-172 | data records of all three kinds are stored at their address plus the offset |
| `Srec.RecordsCons` | repos/u-boot-rk3128-tvbox/cmd/load.c:203-238 | a record line in front of other lines is read and decoded, and the rest is left for the next call |
| `Srec.Stored` | repos/u-boot-rk3128-tvbox/cmd/load.c:151-172 | stored bytes are in memory at their addresses, and all other addresses keep theirs |
| `SrecBoard.Board.SaveSerial` | repos/u-boot-rk3128-tvbox/cmd/load.c:316-369 | the byte by byte do-while loop prints exactly the dump of the range |
| `SrecBoard.Dump` | repos/u-boot-rk3128-tvbox/cmd/load.c:328-365 | the loop with its record buffer and running checksum prints the data records of the range |
| `SrecBoard.Formatted` | repos/u-boot-rk3128-tvbox/cmd/load.c:342-356 | the formatted line with the accumulated checksum is the record of the address and the data |
| `SrecBoard.Board.LoadSerial` | repos/u-boot-rk3128-tvbox/cmd/load.c:131-201 | the load loop leaves the memory and the answer of the specification, for every input text and offset |
| `SrecBoard.SaveThenLoad` | repos/u-boot-rk3128-tvbox/cmd/load.c:316-369 | a range saved on one board and loaded on another at any offset is there, and nothing else changed |
| `Shadow.CoherentStep` | tools/patches/v28-patch.py:34-93 | every step of drawing, reporting, taking damage and copying a byte keeps: where scanout and shadow differ, the byte is in pending damage, in a drawn and unreported rectangle, or in what the worker still has to copy |
| `Shadow.NoUpdateIsLost` | tools/patches/v28-patch.py:34-93 | after any interleaving from a coherent state the state is coherent, and if nothing is pending scanout and shadow are equal |
| `Shadow.QuiescentIsEqual` | tools/patches/v28-patch.py:34-93 | with no damage, no unreported drawing and an idle worker, scanout equals shadow |
| `Shadow.StartIsCoherent` | tools/patches/v28-patch.py:34-93 | equal buffers are a coherent start |
| `Shadow.FinishBlits` | tools/patches/v28-patch.py:76-86 | the worker alone, from any point of a blit, copies exactly what remains |
| `Shadow.Drains` | tools/patches/v28-patch.py:34-93 | from every coherent state without unreported drawings the worker alone comes to rest with scanout equal to shadow |
| `Shadow.GrowCovers` | tools/patches/v28-patch.py:38-39 | the reported area and the damage from before are inside the new damage |
| `ShadowDevice.FbDev.Dirty` | tools/patches/v28-patch.py:58-93 | the dirty callback copies the rectangle and nothing else, fails on a non-empty rectangle without a mapping, and otherwise answers what the framebuffer's own hook answers |
| `ShadowDevice.FbDev.Blit` | tools/patches/v28-patch.py:76-86 | the row loop with its moving pointers copies exactly the bytes of the rectangle |
| `ShadowDevice.FbDev.DrawRect` | tools/patches/v28-patch.py:34-56 | a drawing callback changes the rectangle of the shadow and adds it to the damage |
| `ShadowDevice.FbDev.DamageWork` | tools/patches/v28-patch.py:58-93 | take, clear and copy ends where the interleaved machine ends when nothing interferes; without a mapping the scanout stays as it was |
| `RamTest.Memory.MemTestAlt` | repos/u-boot-rk3128-tvbox/cmd/mem.c:572-794 | on any memory given by an address map and stuck-at masks the test finds no error if and only if the map is injective on the tested words, no tested bit is stuck and the dummy word is not the first word; it stores 0 into every tested word, and good memory then shows 0 |
| `RamTest.Memory.DataLines` | repos/u-boot-rk3128-tvbox/cmd/mem.c:616-641 | when the first word has no stuck bit, the walking bits over the eight patterns find no error if and only if the dummy word is another cell |
| `RamTest.Memory.AddressLines` | repos/u-boot-rk3128-tvbox/cmd/mem.c:678-735 | without stuck bits, no error if and only if word 0 and the power-of-two words are all different cells |
| `RamTest.Memory.Fill` | repos/u-boot-rk3128-tvbox/cmd/mem.c:749-752 | every word holds the number of the last word that shares its cell, so good memory holds 1, 2, 3, ... |
| `RamTest.Memory.CheckAndInvert` | repos/u-boot-rk3128-tvbox/cmd/mem.c:757-772 | no error means every word was seen to show its number; good memory gives none and ends up inverted |
| `RamTest.Memory.CheckAndZero` | repos/u-boot-rk3128-tvbox/cmd/mem.c:777-791 | no error means every word was seen to show the complement of its number and, without stuck bits, that all words are different cells; all words end up 0 |
| `RamTest.Memory.NoStuckBits` | repos/u-boot-rk3128-tvbox/cmd/mem.c:749-791 | a word that shows a number and its complement has no stuck bit |
| `RkCrc.SlowCrc32` | tools/rkflashtool-src/rkcrc.h:50-66 | the bitwise loop computes the CRC function for every initial value and buffer |
| `RkCrc.SlowCrc16` | tools/rkflashtool-src/rkcrc.h:31-48 | the bitwise loop computes the CRC function for every initial value and buffer |
| `RkCrc.TableCrc32` | tools/rkflashtool-src/rkcrc.h:212-220 | the table loop computes the same function as the bitwise loop |
| `RkCrc.TableCrc16` | tools/rkflashtool-src/rkcrc.h:202-210 | the table loop computes the same function as the bitwise loop |
| `RkCrc32.Table32Entry` | tools/rkflashtool-src/rkcrc.h:135-200 | every entry of the 32-bit table is eight bitwise steps of its index |
| `RkCrc16.Table16Entry` | tools/rkflashtool-src/rkcrc.h:68-133 | every entry of the 16-bit table is eight bitwise steps of its index |
| `RkCrc32.TableByteIsByte` | tools/rkflashtool-src/rkcrc.h:216-217 | one byte by table is eight bitwise steps, for every register and byte |
| `RkCrc16.TableByteIsByte` | tools/rkflashtool-src/rkcrc.h:206-207 | one byte by table is eight bitwise steps, for every register and byte |
| `RkCrc32.StepRegister` | tools/rkflashtool-src/rkcrc.h:57-62 | a bitwise step on words is a step of a shift register of 32 bits with polynomial 0x04c10db7 |
| `RkCrc16.StepRegister` | tools/rkflashtool-src/rkcrc.h:39-44 | a bitwise step on words is a step of a shift register of 16 bits with polynomial 0x1021 |
| `RkCrc.Crc32Concat` | tools/rkflashtool-src/rkcrc.c:100-104 | feeding the running value gives the same CRC wherever the buffer is split |
| `RkCrc.Crc16Concat` | tools/rkflashtool-src/rkflashtool.c:360-366 | feeding the running value gives the same CRC wherever the buffer is split |
| `RkCrc.Crc32Feeds` | tools/rkflashtool-src/rkcrc.h:50-66 | the CRC of a message is its bits, highest bit of the first byte first, fed to the register |
| `RkCrc.Crc16Feeds` | tools/rkflashtool-src/rkcrc.h:31-48 | the CRC of a message is its bits, highest bit of the first byte first, fed to the register |
| `RkCrc.Burst32` | tools/rkflashtool-src/rkcrc.h:50-66 | messages that differ only inside a window of at most 32 bits have different CRCs, for every prefix, suffix and initial value |
| `RkCrc.Burst16` | tools/rkflashtool-src/rkcrc.h:31-48 | messages that differ only inside a window of at most 16 bits have different CRCs, for every prefix, suffix and initial value |
| `RkCrc.Window32` | tools/rkflashtool-src/rkcrc.h:212-220 | the same for any window of at most 4 bytes |
| `RkCrc.Window16` | tools/rkflashtool-src/rkcrc.h:202-210 | the same for any window of at most 2 bytes |
| `RkImage.AppendCrc` | tools/rkflashtool-src/rkcrc.c:100-108 | the output is the input, however it was read, followed by the little-endian CRC of all of it |
| `RkImage.Crc32Rk` | repos/u-boot-rk3128-tvbox/cmd/bootrkp.c:94-108 | on non-empty data the loader computes the same CRC |
| `RkImage.Crc32Verify` | repos/u-boot-rk3128-tvbox/cmd/bootrkp.c:112-127 | the verifier answers the stored CRC if it is the CRC of the rest, and 0 otherwise or for at most 4 bytes |
| `RkImage.SealedImageVerifies` | repos/u-boot-rk3128-tvbox/cmd/bootrkp.c:112-127 | an image with its CRC appended passes if and only if that CRC is not 0 |
| `RkImage.ZeroImageFails` | repos/u-boot-rk3128-tvbox/cmd/bootrkp.c:126 | every all-zero image with its right CRC is reported as failed |
| `RkImage.BurstRejected` | repos/u-boot-rk3128-tvbox/cmd/bootrkp.c:112-127 | a burst of at most 32 bits in the data of an image never gets past the verifier |
| `RkImage.Residue` | tools/rkflashtool-src/rkcrc.h:202-210 | a message followed by its own CRC-16, high byte first, leaves 0 in the register |
| `RkImage.Download` | tools/rkflashtool-src/rkflashtool.c:357-388 | unless reading fails, the bytes sent are the bytes read followed by their CRC-16 from 0xffff, whatever the number of chunks, and the CRC-16 of all that is sent is 0; after a failed read no CRC is sent |
| `Mtd.FirstIsExact` | repos/u-boot-rk3128-tvbox/cmd/mtd.c:342-354 | the walk visits all good pages from the start offset on if and only if the start is on a block boundary or in a good block |
| `Mtd.GoodsOrdered` | repos/u-boot-rk3128-tvbox/cmd/mtd.c:347-373 | the visited pages are good, at or after the start, and in increasing order |
| `Mtd.GoodsComplete` | repos/u-boot-rk3128-tvbox/cmd/mtd.c:347-373 | every good page at or after the start is visited |
| `Mtd.Nand.FirstGoodBlock` | repos/u-boot-rk3128-tvbox/cmd/mtd.c:342-345 | the search stops in the first good block, at the page offset of the start |
| `Mtd.Nand.Read` | repos/u-boot-rk3128-tvbox/cmd/mtd.c:347-373 | page i of the result is the i-th visited page, and nothing is changed |
| `Mtd.Nand.Write` | repos/u-boot-rk3128-tvbox/cmd/mtd.c:347-373 | the i-th visited page is programmed with page i of the data, and no other page, of a bad block in particular, is touched |
| `Mtd.Nand.WritePage` | repos/u-boot-rk3128-tvbox/cmd/mtd.c:206-224 | an empty page is skipped with the same effect as programming it |
| `Mtd.Nand.IsBlank` | repos/u-boot-rk3128-tvbox/cmd/mtd.c:167-180 | the scan answers whether every byte is 0xFF |
| `Mtd.Nand.Erase` | repos/u-boot-rk3128-tvbox/cmd/mtd.c:418-432 | every good block of the range ends up erased and nothing else is touched, however many bad blocks the loop has to restart behind |
| `Mtd.Nand.FlashAndReadBack` | repos/u-boot-rk3128-tvbox/cmd/mtd.c:342-373 | erase, write and read of any page-aligned range return the data, whatever the bad blocks and whether or not empty pages are skipped |
| `Nor.PlanStaysInside` | repos/u-boot-rk3128-tvbox/cmd/flash.c:188-269 | for banks in any order, a successful plan never selects an address outside the given range |
| `Nor.PlanIsExact` | repos/u-boot-rk3128-tvbox/cmd/flash.c:188-269 | on known, ascending, contiguous banks, a range between sector boundaries selects exactly the sectors that meet it |
| `Nor.PlusLengthIsExact` | repos/u-boot-rk3128-tvbox/cmd/flash.c:147-180 | "start +len" from a sector boundary, with its end rounded up, selects exactly the sectors that meet the len bytes |
| `NorErase.PlanIff` | repos/u-boot-rk3128-tvbox/cmd/flash.c:188-269 | with contiguous identified banks the planner succeeds if and only if the range starts on a sector boundary of them and ends on one or behind them, or does neither and starts outside them or at the last address of one; it selects exactly their sectors that meet the range, or nothing |
| `NorErase.PlanSkipsUnknown` | repos/u-boot-rk3128-tvbox/cmd/flash.c:211-213 | for any banks there is a plan if and only if there is one for the identified banks alone; it selects the same sectors there, with the same count, and nothing elsewhere |
| `NorErase.UnknownFirst` | repos/u-boot-rk3128-tvbox/cmd/flash.c:211-213 | an unknown bank in front of a bank does not keep its sector from being selected |
| `NorErase.CountIsMeeting` | repos/u-boot-rk3128-tvbox/cmd/flash.c:255 | the count of an exact plan is the number of sectors that meet the range |
| `NorErase.AddrSpec` | repos/u-boot-rk3128-tvbox/cmd/flash.c:147-186 | "+len" becomes the end of the sector that holds the last byte, with an error exactly if no sector holds it |
| `NorErase.PlusLength` | repos/u-boot-rk3128-tvbox/cmd/flash.c:147-269 | rounding and planning composed, with contiguous identified banks: an error exactly if no sector holds the last byte, and otherwise, unless an unknown bank claims that byte, return code 0, exactly the sectors that meet the range, and their number |
| `Nor.RoundB` | repos/u-boot-rk3128-tvbox/cmd/flash.c:92-128 | an address moves to the end of its sector, with an error exactly if no sector holds it |
| `Nor.FillSectRanges` | repos/u-boot-rk3128-tvbox/cmd/flash.c:188-269 | the loops over banks and sectors compute the plan and its sector count, or an error exactly when there is no plan |
| `Nor.ScanBank` | repos/u-boot-rk3128-tvbox/cmd/flash.c:219-235 | the scan finds the sector that starts the range and the one that ends it |
| `Nor.DecideBank` | repos/u-boot-rk3128-tvbox/cmd/flash.c:219-265 | one bank: selection, next address or error as the plan says |
| `Efi.TableKeepsMeaning` | repos/u-boot-rk3128-tvbox/cmd/efi.c:69-120 | for every order in which the sort may leave the map: every address keeps its type (boot services as conventional memory when they are skipped), the pages are conserved, without skipping the table is the sorted map, and it is ascending if the starts are less than 2^63 apart |
| `Efi.SortedIff` | repos/u-boot-rk3128-tvbox/cmd/efi.c:56-67 | the sort is sure to leave a map ascending if and only if its start addresses are less than 2^63 apart |
| `Efi.FarIsDescending` | repos/u-boot-rk3128-tvbox/cmd/efi.c:60-66 | two regions more than 2^63 apart come out in descending order, in whatever order the map has them |
| `Efi.FarExample` | repos/u-boot-rk3128-tvbox/cmd/efi.c:60-66 | a page at 0 and one a page above 2^63 give a table out of order |
| `Efi.FarAbuts` | repos/u-boot-rk3128-tvbox/cmd/efi.c:97-110 | a region of 2^63 bytes or more and the one behind it, listed in descending order, stay abutting entries |
| `Efi.ShellSort` | repos/u-boot-rk3128-tvbox/lib/qsort.c:22-65 | the sort with this comparison permutes the descriptors in place, whatever their starts, and leaves no two neighbours that it would exchange |
| `Efi.MoveBack` | repos/u-boot-rk3128-tvbox/lib/qsort.c:43-60 | one element is moved back in steps of the gap; with steps of one an ordered prefix grows by it |
| `Efi.NoAbutting` | repos/u-boot-rk3128-tvbox/cmd/efi.c:97-110 | on disjoint regions less than 2^63 apart no two conventional entries of the merged table abut |
| `Efi.MergeKeepsTypes` | repos/u-boot-rk3128-tvbox/cmd/efi.c:88-114 | merging changes the type of no address |
| `Efi.ShownTypes` | repos/u-boot-rk3128-tvbox/cmd/efi.c:49-54 | with boot services skipped types 1 to 4 become type 7 and all others stay |
| `Efi.MergeKeepsPages` | repos/u-boot-rk3128-tvbox/cmd/efi.c:106-107 | merging conserves the number of pages |
| `Efi.CompareIsOrderIff` | repos/u-boot-rk3128-tvbox/cmd/efi.c:56-67 | the comparison orders two addresses correctly if and only if their difference fits a signed 64-bit word |
| `Efi.Compact` | repos/u-boot-rk3128-tvbox/cmd/efi.c:84-117 | the loop over one array, read and written in place, leaves the merged table in front |
| `Efi.Place` | repos/u-boot-rk3128-tvbox/cmd/efi.c:88-114 | one descriptor is merged into the entry before it or becomes the next entry; entries not yet read keep their value |
| `Efi.BuildMemTable` | repos/u-boot-rk3128-tvbox/cmd/efi.c:69-120 | the fresh buffer holds the merged table of the map as the sort left it, followed by the end mark; it keeps every type and the pages, and is ascending if the starts are less than 2^63 apart |
| `StorageEnum.EnumerationComplete` | repos/u-boot-rk3128-tvbox/api/api_storage.c:99-287 | the enumeration yields each active device once, in group and index order, if and only if no active device is behind an inactive one; so it does when every present device is active |
| `StorageEnum.FollowingScan` | repos/u-boot-rk3128-tvbox/api/api_storage.c:276-287 | following the enumerator to its end gives exactly the devices reached |
| `StorageEnum.InactiveHides` | repos/u-boot-rk3128-tvbox/api/api_storage.c:134-149 | a group whose first present device is inactive is hidden altogether, and so is the next configured group; the enumeration goes on behind that |
| `StorageEnum.Enumerator.EnumerateAll` | repos/u-boot-rk3128-tvbox/api/api.c:197-227 | a caller that starts with a NULL cookie and stops at one sees exactly the devices reached |
| `StorageEnum.Enumerator.ApiDevEnum` | repos/u-boot-rk3128-tvbox/api/api.c:197-227 | one call moves the cookie to the next device of the specification, or to NULL when there is none |
| `StorageEnum.Enumerator.EnumStor` | repos/u-boot-rk3128-tvbox/api/api_storage.c:176-264 | one group: its first device, the device behind the cookie, or nothing, with the flags of the group kept |
| `StorageEnum.Enumerator.EnumGroup` | repos/u-boot-rk3128-tvbox/api/api_storage.c:276-287 | one round of the loop over the groups finds the goal or moves on without losing it |
| `StorageEnum.Enumerator.StorGet` | repos/u-boot-rk3128-tvbox/api/api_storage.c:99-150 | the first device or the one behind the cookie, and whether there are more |
| `StorageEnum.Enumerator.StorType` | repos/u-boot-rk3128-tvbox/api/api_storage.c:155-165 | the group of a device |
| `StorageEnum.Enumerator.Reset` | repos/u-boot-rk3128-tvbox/api/api_storage.c:266-274 | all groups are unvisited again |
| `Gpt.ListRoundTrip` | repos/u-boot-rk3128-tvbox/cmd/gpt.c:399-542 | a printed list parses to the same guid, partitions, order and count if and only if it fits the length limit and every partition has a start and size in whole MiB that fit lbaint_t, a start below 2^32 blocks and no bootable flag |
| `Gpt.DiskRoundTrip` | repos/u-boot-rk3128-tvbox/cmd/gpt.c:159-176 | for up to 64 partitions the computed limit is always large enough, so only the partitions matter |
| `Gpt.ListReads` | repos/u-boot-rk3128-tvbox/cmd/gpt.c:399-542 | within the limit the parser reads back what the text stands for; beyond it the count is wrong or parsing fails |
| `Gpt.PartRoundTrip` | repos/u-boot-rk3128-tvbox/cmd/gpt.c:451-535 | one printed partition parses to what its text stands for, whatever its numbers |
| `Gpt.ShownIff` | repos/u-boot-rk3128-tvbox/cmd/gpt.c:218-226 | a block count survives printing and parsing if and only if its byte value fits and is whole MiB |
| `Gpt.BytesRoundTrip` | repos/u-boot-rk3128-tvbox/lib/strto.c:108-148 | a printed size, even with its suffix cut by the buffer, reads back as whole megabytes |
| `Gpt.StartIsCut` | repos/u-boot-rk3128-tvbox/cmd/gpt.c:286-287 | a start of 2^32 blocks, although it fits lbaint_t, is printed as 0 through the unsigned long cast |
| `Gpt.FieldValues` | repos/u-boot-rk3128-tvbox/cmd/gpt.c:96-123 | the value of every field of a partition line is found by its key |
| `GptFields.TokenParses` | repos/u-boot-rk3128-tvbox/cmd/gpt.c:451-537 | for any fields in any order: the parser gives back name, uuid, size (0 for a dash) and start (0 if absent), and sets the bootable flag exactly if that key stands alone in the token |
| `GptFields.AcceptedIff` | repos/u-boot-rk3128-tvbox/cmd/gpt.c:451-520 | a token is refused with -4 if and only if it has no uuid, name or size, or one that does not fit |
| `GptFields.ExtractIsLookup` | repos/u-boot-rk3128-tvbox/cmd/gpt.c:96-123 | the value found for a key is that of the first field with it |
| `GptFields.FoundIsBare` | repos/u-boot-rk3128-tvbox/cmd/gpt.c:133-157 | a key is found if and only if some field is that key alone |
| `GptFields.AmountRoundTrip` | repos/u-boot-rk3128-tvbox/lib/strto.c:108-148 | a number with no unit, K, M or G, short or written out, is read as that many bytes |
| `GptFields.BootableExample` | repos/u-boot-rk3128-tvbox/cmd/gpt.c:536-537 | a token with name, size, uuid and bootable sets the flag |
| `GptFields.VariableExpands` | repos/u-boot-rk3128-tvbox/cmd/gpt.c:37-83 | ${name} stands for the value of a variable that is set |
| `GptFields.LiteralStays` | repos/u-boot-rk3128-tvbox/cmd/gpt.c:46-50 | any other string stands for itself |
| `GptFields.NoDiskGuid` | repos/u-boot-rk3128-tvbox/cmd/gpt.c:401-411 | a list without a disk guid is refused with -2 |
| `GptFields.NoPartitions` | repos/u-boot-rk3128-tvbox/cmd/gpt.c:421-426 | a disk guid without a semicolon is refused with -EINVAL, and one with nothing behind it with -3 |
| `Gpt.CreateList` | repos/u-boot-rk3128-tvbox/cmd/gpt.c:266-301 | the strcat loop builds the printed list |
| `Gpt.ExtractValue` | repos/u-boot-rk3128-tvbox/cmd/gpt.c:96-123 | the strsep loop finds the value of the first field with the key |
| `Gpt.HasKey` | repos/u-boot-rk3128-tvbox/cmd/gpt.c:133-157 | the strsep loop finds a key without value |
| `Gpt.ReadPart` | repos/u-boot-rk3128-tvbox/cmd/gpt.c:451-535 | one partition token, with the same errors in the same order |
| `Gpt.ReadParts` | repos/u-boot-rk3128-tvbox/cmd/gpt.c:445-535 | the loop over the tokens fills the partitions or stops at the first error |
| `Gpt.SetGptInfo` | repos/u-boot-rk3128-tvbox/cmd/gpt.c:399-542 | the whole parser with its error codes |
| `AfsSum.ComputeCrc` | repos/u-boot-rk3128-tvbox/cmd/armflash.c:38-57 | the loop value, complemented; 0 for a length that is no multiple of 4 |
| `AfsSum.FoldIsResidue` | repos/u-boot-rk3128-tvbox/cmd/armflash.c:48-55 | the loop value is 0 for an empty sum and otherwise ((sum - 1) mod (2^32 - 1)) + 1 |
| `AfsSum.ZeroSum` | repos/u-boot-rk3128-tvbox/cmd/armflash.c:48-55 | the sum is 0 exactly if all words are 0 |
| `AfsSum.OrderIndependent` | repos/u-boot-rk3128-tvbox/cmd/armflash.c:48-55 | the order of the words does not matter |
| `AfsSum.SealIff` | repos/u-boot-rk3128-tvbox/cmd/armflash.c:137-145 | a word stored anywhere makes the checksum of the whole 0 if and only if it is the checksum of the others, or all ones when that is 0 |
| `AfsSum.OneWordDetected` | repos/u-boot-rk3128-tvbox/cmd/armflash.c:48-55 | a changed word changes the checksum except between 0 and all ones beside other non-zero words |
| `LedDaemon.ConnectedIff` | tools/xmio-led.c:302-344 | the network counts as connected if and only if one of the last 50 iterations probed with an address and with no gateway, a reply from it or no socket to ask it, and there was carrier in every iteration since |
| `LedDaemon.GreenIff` | tools/xmio-led.c:346-353 | once booted, 0 (green) is written exactly when connected, which needs carrier now, and 1 (red) otherwise |
| `LedDaemon.ProbeSchedule` | tools/xmio-led.c:318-343 | while the carrier stays, the network is asked 50 iterations after an answer and 5 after none, and not before |
| `LedDaemon.NewCarrierProbes` | tools/xmio-led.c:311-318 | every new carrier is asked about at once |
| `LedDaemon.BlinksBeforeBoot` | tools/xmio-led.c:346-348 | until boot is detected the LED alternates, beginning with red |
| `LedDaemon.YellowIff` | tools/xmio-led.c:355-370 | the yellow LED is lit exactly when there are disk statistics and they differ from the last ones |
| `LedDaemon.YellowIsLastAsked` | tools/xmio-led.c:64-71 | the yellow LED shows what was last asked for while its file could be opened |
| `LedDaemon.RunKeeps` | tools/xmio-led.c:292-353 | after every iteration of every run the network is decided as 0 or 1 and the caches say what the LEDs show |
| `LedDaemon.BootIsMonotone` | tools/xmio-led.c:297-300 | once booted, always booted |
| `LedDaemon.BootIff` | tools/xmio-led.c:295-317 | with the multi-user target reached all along, boot is detected if and only if some iteration comes after three in a row without a new carrier |
| `LedDaemon.BootsWithinFour` | tools/xmio-led.c:295-300 | from any state, four iterations without a new carrier and with the target reached detect boot |
| `LedDaemon.FlapNeverBoots` | tools/xmio-led.c:311-317 | a carrier that comes and goes with every iteration hides boot for ever, as it resets the ticks |
| `LedDaemon.LedIsLastAsked` | tools/xmio-led.c:55-63 | writing only on a change loses nothing: the LED shows the last colour asked for while its file could be opened |
| `LedDaemon.LedFollows` | tools/xmio-led.c:55-63 | the LED shows the colour just asked for exactly if its file opened or it showed it already |
| `LedDaemon.ConnectsWithinFive` | tools/xmio-led.c:317-343 | five iterations with carrier, an address, and no gateway, a replying one or no socket always connect, from every reachable state |
| `LedDaemon.DisconnectsWithinFifty` | tools/xmio-led.c:317-343 | fifty iterations without carrier, without an address, or with a gateway that does not reply always disconnect, from every reachable state |
| `LedDaemon.StepIsParts` | tools/xmio-led.c:292-353 | the closed form of an iteration is its four parts in order |
| `LedDaemon.Daemon.Iterate` | tools/xmio-led.c:292-353 | the loop body changes the variables as one step of the machine |
| `LedDaemon.Daemon.Loop` | tools/xmio-led.c:292-353 | any number of rounds of the loop is a run of the machine |
| `LedDaemon.Daemon.Network` | tools/xmio-led.c:302-344 | carrier, probing and timers |
| `Rsce.RoundTripIff` | tools/pack_resource.py:15-49 | unpacking a packed image gives back the same names and contents in order if and only if every name has no NUL and at most 219 bytes |
| `Rsce.UnpackPack` | tools/pack_resource.py:15-49 | for every packable list the contents come back, with each name up to its first NUL and 219 bytes; unpacking raises if and only if the cut at 219 bytes goes through a character of some name |
| `Rsce.StoredNameIff` | tools/pack_resource.py:26-45 | the stored name decodes if and only if the name has at most 219 bytes, or a NUL among them, or a character that starts behind them |
| `Rsce.SplitCharacter` | tools/pack_resource.py:45 | 218 letters and a two-byte character: packing succeeds and unpacking raises |
| `Utf8.PrefixIff` | tools/pack_resource.py:45 | a prefix of a UTF-8 string decodes if and only if the cut is not in front of a continuation byte |
| `Rsce.Disjoint` | tools/pack_resource.py:24-33 | contents lie behind the table on blocks that no two of them share |
| `Rsce.ContentAt` | tools/pack_resource.py:24-33 | every content stands at its block offset in the image |
| `Rsce.HeaderLayout` | tools/pack_resource.py:19-20 | the header block byte by byte |
| `Rsce.EntryLayout` | tools/pack_resource.py:26-29 | a table block: tag, name in 220 bytes, empty hash, offset, size and zeros |
| `Rsce.BlobLayout` | tools/pack_resource.py:30-31 | a content is followed by fewer than 512 zeros |
| `Rsce.Image` | tools/pack_resource.py:15-34 | the image is one header block, one block an entry and the blocks of the contents long |
| `Rsce.Pack` | tools/pack_resource.py:15-34 | the loops build the image, or raise exactly when a count, offset or size does not fit 32 bits |
| `Rsce.UnpackImage` | tools/pack_resource.py:37-49 | the loop reads the table as specified |
| `Rsce.PackThenUnpack` | tools/pack_resource.py:15-49 | something comes back if and only if the list is packable and no name is cut inside a character; it is the shown list, and the same list if and only if every name fits |

## Left out

- Reading a character, printing, delays, watchdogs, ^C checks, memory allocation failures and debug logs: input is a
  parameter, output a result, and no command is interrupted.
- `mem_test_quick`, which only fills and compares with an incrementing pattern, and the interactive `mtest` loop.
- Ymodem and zmodem, and the other commands, which only dispatch and print.
- KermitReceiver.Receiver.Receive: the end of the input is modelled as the end of the run, because the source then
  waits for ever; addresses do not wrap.
- SrecBoard.Board.LoadSerial: memory is RAM, so writing to NOR flash is not modelled; a count field too small for its
  own address counts as no data, where the source passes a negative length to memcpy.
- SrecBoard.Board.SaveSerial: the range does not wrap around the end of the 32-bit address space.
- ShadowDevice.FbDev.DamageWork: restoring the damage after a failed callback, the lock, and the deferred I/O write path,
  which reports a byte range through a helper whose source is not part of this model.
- ShadowDevice.FbDev.DrawRect: the three callbacks differ only in what they draw, which is a parameter; rectangles lie on
  the screen.
- RamTest.Memory.MemTestAlt: cells are 32-bit words with stuck bits and an address map; faults between cells are not
  modelled.
- RkImage.Crc32Verify: the buffer is a byte string; `read_rockchip_image`, which reads the header again after the copy
  over it, and the boot flow are not part of this model.
- Mtd.Nand.Read: as for `Mtd.Nand.Write`.
- Mtd.Nand.Write: out-of-band bytes, raw mode, devices without pages and failing device calls; the walk
  ends inside the device, as the source does not check for the end.
- Mtd.Nand.Erase: scrubbing, which the command's own string comparison never lets through, and an empty range, for which
  the source tests an uninitialised result.
- NorErase.PlusLength: if a bank that was not identified still lists a sector with the last byte, the end may be rounded
  there, and nothing is said about the sectors then.
- NorErase.AddrSpec: the two arguments are numbers already; an empty range at address 0 wraps in the source and is excluded.
- Nor.FillSectRanges: the sector number kept in a short, and address wrap at the top of the address space; the erase and
  protect operations themselves.
- Efi.BuildMemTable: descriptors have the size of the structure; addresses and page counts do not wrap; printing the
  table.
- Efi.NoAbutting: that the starts are less than 2^63 apart is sufficient; without it `FarAbuts` gives tables with abutting
  entries, but not every far map has one.
- StorageEnum.Enumerator.ApiDevEnum: there is no network device, as with the stub network layer, and a cookie is NULL or
  came from the enumeration; opening and reading devices.
- Gpt.SetGptInfo: random uuids and type GUIDs are configured out; a key without a value has no value, where the source
  duplicates a null pointer; writing the table to the disk.
- Gpt.ListRoundTrip: names and uuids are free of ',', ';', '=' and within their fields, and there are fewer than 256
  partitions, as the parser's count has 8 bits.
- AfsSum.ComputeCrc: lengths stay below 2^31, where the signed loop index is the byte offset; parsing image footers.
- LedDaemon.Daemon.Iterate: what the system reports in an iteration is an input; the tick counter does not wrap; a write
  that fails after the LED file was opened counts as done, as it does in the source.
- Rsce.Pack: names are given by their UTF-8 bytes; reading and writing files.
- Kernel drivers that appear only as targets of text patches, device trees, USB and sysfs access.
