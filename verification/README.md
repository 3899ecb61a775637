# Verified models of MiniPlex and ProtoConv

This project models the two programs of the repository in Dafny and proves what they are for.

* **TinyRISCV64**, the RV64IM virtual machine that finds the addresses in a packet. The ISA is
  written down once more, independently, as a step over a flat byte memory (`Rv64`, `Encoding`:
  RISC-V Unprivileged ISA v20191213, section 2.3, chapter 5, sections 7.1 and 7.2), and whole
  runs of the machine are whole runs of that step. The machine itself is the class
  `TinyRiscV64.VM`, with its three regions and a register file whose slot 0 may be stale.
  The published DNP3 address program is proved correct on it, for every packet.
* **ProtoConv**, stream to datagrams and back: two frame scanners (DNP3 link frames, clause 9 and
  Annex E of IEEE Std 1815-2012; and a delimiter with number and CRC), the extraction loop, two
  resequencers (32-bit serial numbers; DNP3 transport fragments modulo 64, clause 8 of the same
  standard), the striping over serial ports, and the TCP write path. `EndToEnd.Delivers` puts
  number, stripe, scan and resequence together.
* **MiniPlex**, forwarding between branches and a trunk over caches with lazily re-armed timers.

Objects that the programs update in place are classes, and their methods are proved against
functions or step relations on values; invariants over all runs are proved about those.
Each strand handler is one atomic step. Clock readings are parameters that do not decrease, and
timer firings, port completions, connection events and posted notifications are events that may
come at any time the code allows.

## Files

| part | files |
|---|---|
| shared | `Options` |
| virtual machine | `Bits`, `Rv64`, `Encoding`, `Decoder`, `Multiply`, `Regions`, `Machine`, `StepCases`, `TinyRiscV64`, `AluLaws` |
| address programs | `Dnp3Bytecode`, `SwitchAddress`, `HeaderAddresses`, `SwitchPackets` |
| framing | `Bytes`, `Crc`, `Dnp3Frame`, `DelimFrame`, `CcittBursts`, `StreamReader`, `Chunks`, `Resync`, `Stalls` |
| resequencing | `PriorityQueue`, `IndexedQueue`, `DelimReorder`, `LateFrames`, `InTime`, `Dnp3Reorder`, `Dnp3Limit`, `Dnp3Flows`, `Dnp3Recovery` |
| sending | `ProtoConv`, `SerialPorts`, `EndToEnd`, `TcpWriter`, `TcpRuns`, `TcpOrder`, `TcpSequence` |
| forwarding | `TimeoutCache`, `CacheRuns`, `Forwarding`, `ForwardingRuns`, `Routing`, `MiniPlex` |

`dafny verify dfyconfig.toml` checks everything.

## What the code does not do

Properties that one might expect and that the code does not have are stated as what is true, with
the exact condition or an input that shows the difference.

* `Machine.RemwOverflows`, `Machine.StepAgrees`: REMW of INT32_MIN by -1 has no overflow guard in
  the C++ code (DIVW, DIV and REM have one); elsewhere the machine and the ISA agree, but for an
  EBREAK between the two semihosting markers.
* `Encoding.AcceptsExactly`: the machine ignores bits that the ISA fixes (among them the reserved
  shift encodings). Besides SYSTEM words with a funct3 other than 0, which all count as a CSR
  access and act as `addi rd, x0, 0`, it accepts exactly the words that are standard encodings
  once those bits are cleared.
* `Stalls.StallsExactly`: a header with a right checksum and a length field below 5 makes the
  computed length wrap around; the scanner then takes nothing more, and it stops for good exactly
  when such a header stands at a frame boundary. `Stalls.ShortHeaderSwallows` shows one.
* `DelimReorder.InOrder`, `InTime.InOrderExactly`: frames are written in order if and only if no
  frame is overtaken by more than the configured number and the head of the queue never waits for
  longer than it may, which is decided by the arrivals and their times.
* `LateFrames.WritesLateExactly`, `LateFrames.MovesBackExactly`: a late or duplicate frame sits at
  the head of the queue and withholds even the expected frame; it is written out of turn exactly
  when the queue overflows or the wait grows too long, and the expected number ends up behind
  where it was exactly when the held frames do not bridge the gap. `LateFrames.DuplicateMovesBack`
  is such a run.
* `Dnp3Reorder.LimitIs34`, `Dnp3Limit.MessageLimit`: the comparator orders the fragments of a
  message only up to 34, and only up to 34 is a message sure to come out as it was sent.
* `Dnp3Recovery.DuplicateIff`, `Dnp3Recovery.LossyMessages`: after a lost fragment the next message
  comes out whole if its first fragment to arrive repeats the FIR, the FIN or a number of what was
  left; else it is mixed with that, and `Dnp3Recovery.MixedHolds` is a run in which it is withheld.
* `CcittBursts.TrailerBursts`: the CRC of a trailer stands low byte first, so one kind of damage to
  two adjacent bytes goes unnoticed: the last byte of the number changed by 0x89 together with the
  first byte of the CRC changed by 0xA1. All others are noticed.
* `DelimFrame.FrameRoundTrip`: a payload comes back if and only if no valid trailer ends earlier;
  `EndToEnd.ChainedIsNotClean` shows what becomes of one that was framed before.
* `ForwardingRuns.ApartUnlessLate`: a fixed branch is listed twice after a timeout notification
  that runs late, and only then; `ForwardingRuns.RaceDuplicates` is such a run.
* `TcpSequence.SentInOrderExactly`: the TCP writer is sure to send the bytes in the order in
  which it accepted them if and only if no direct write starts while data is buffered and none is
  cut short with data behind it; else there is a way on which they go out in another order.
  `TcpOrder.CalmUnlessBroken` says how data comes to be buffered then; `TcpOrder.OverlapReorders`,
  `TcpOrder.ReopenReorders` and `TcpOrder.ShortReorders` are runs that reorder.
* The text of `Examples/SwitchBytecode/README.md` and the file `SwitchDNP3_FAST.s` differ: the
  latter also checks the length field. The proof is about the bytes printed in the text.

## Model

| member | source | states |
|---|---|---|
| Multiply.Mulu64_128Exact | src/TinyRISCV64.h:565-581 | the two words are the exact 128-bit product: no column of the school multiplication overflows |
| Multiply.MulhExact | src/TinyRISCV64.h:584-598 | the sign fix-up yields the floor of the signed product by 2^64, INT64_MIN and zero products included |
| Multiply.MulhsuExact | src/TinyRISCV64.h:601-618 | the same for a signed and an unsigned factor |
| Multiply.MulhuExact | src/TinyRISCV64.h:619 | the same for unsigned factors |
| Multiply.LowWordSigned | src/TinyRISCV64.h:414 | the low word does not depend on how the factors are read |
| Multiply.SignedPairExact | src/TinyRISCV64.h:584-598 | MULH and MUL together are the exact signed product |
| Rv64.BytesRoundTrip | src/TinyRISCV64.h:301-312 | the n low bytes of any value, read back, are the value modulo 256^n |
| Rv64.StoreThenLoad | src/TinyRISCV64.h:301-312 | stored bytes are read back, and disjoint bytes are as before |
| Rv64.StoreThenLoadValue | src/TinyRISCV64.h:331-358 | a load after a store of its width at the same address yields the low bytes of the stored register, sign- or zero-extended by the load |
| Rv64.StoreKeepsOthers | src/TinyRISCV64.h:331-358 | a load of disjoint bytes finds what it would have found before the store, or faults as before |
| Encoding.DecodeEncode | src/TinyRISCV64.h:248-281 | every well-formed RV64IM instruction is decoded from its encoding, immediates included |
| Encoding.EncodeDecode | src/TinyRISCV64.h:248-281 | what is accepted is well formed; a CSR access stands for `addi rd, x0, 0`, and the encoding of anything else is the word with the ignored bits cleared, so it is the word itself if and only if they are clear |
| Encoding.AcceptsExactly | src/TinyRISCV64.h:248-281 | any word but a CSR access is accepted as an instruction if and only if that instruction is well formed and the word without the ignored bits is its encoding |
| Decoder.FieldsAgree | src/TinyRISCV64.h:229-234 | the masks and shifts pick the fields of the instruction formats |
| Decoder.ImmIAgrees | src/TinyRISCV64.h:235 | the I immediate is the sign-extended field of the format |
| Decoder.ImmSAgrees | src/TinyRISCV64.h:236 | the S immediate is assembled from its two fields |
| Decoder.ImmBAgrees | src/TinyRISCV64.h:237-240 | the scattered B immediate is the format's branch offset |
| Decoder.ImmJAgrees | src/TinyRISCV64.h:241-244 | the scattered J immediate is the format's jump offset |
| Decoder.ImmUAgrees | src/TinyRISCV64.h:245 | the U immediate is the sign-extended upper field |
| Decoder.ShiftKind | src/TinyRISCV64.h:365-371 | the bit that selects the arithmetic shift is the one of the format |
| Regions.OneRegion | src/TinyRISCV64.h:283-298 | an access whose bytes are all mapped lies within one region: the gaps are wider than any access |
| Regions.WriteProgram | src/TinyRISCV64.h:309-312 | a write inside the program region changes just those bytes of the flat memory |
| Regions.WriteData | src/TinyRISCV64.h:309-312 | the same for the data region |
| Regions.WriteStack | src/TinyRISCV64.h:309-312 | the same for the stack region |
| Machine.StandardIsDecoded | src/TinyRISCV64.h:248-281 | a word stands for a standard instruction exactly when the machine accepts it with clear reserved bits, and then they are the same |
| Machine.StepAgrees | src/TinyRISCV64.h:248-281 | one step is the standard's step if and only if it is neither an overflowing REMW nor a semihosting call |
| Machine.RemwOverflows | src/TinyRISCV64.h:469-472 | a concrete state in which REMW departs from the standard's result 0 |
| Machine.SentinelIsOutside | src/TinyRISCV64.h:190-207 | the return address is the first multiple of four behind the program |
| Machine.RunAgrees | src/TinyRISCV64.h:156-180 | a whole run ends with the registers, memory, program counter and fault of the run of the standard step; a run that leaves the standard agrees with it up to the state in which it does |
| TinyRiscV64.VM.constructor | src/TinyRISCV64.h:84-85 | an empty program, a zeroed stack and well laid out regions |
| TinyRiscV64.VM.Reset | src/TinyRISCV64.h:190-207 | zeroed registers, the return address at the sentinel, stack and frame pointer at the end of the stack, and the address map of the present regions |
| TinyRiscV64.VM.ProgramLoad | src/TinyRISCV64.h:98-106 | the program is replaced if it fits, registers and address map are reset; else nothing changes |
| TinyRiscV64.VM.MapDataMem | src/TinyRISCV64.h:110-115 | the data region is the given buffer, and the rest is reset |
| TinyRiscV64.VM.MemPtr | src/TinyRISCV64.h:283-298 | the region and offset of an access, or nowhere, exactly as the flat memory maps it |
| TinyRiscV64.VM.MemLoad | src/TinyRISCV64.h:301-306 | succeeds exactly on mapped addresses, with the bytes of the flat memory |
| TinyRiscV64.VM.MemStore | src/TinyRISCV64.h:309-312 | succeeds exactly on mapped addresses, and then is a write to the flat memory; sizes are kept |
| TinyRiscV64.VM.ExecBranch | src/TinyRISCV64.h:315-329 | branches exactly when the standard's condition holds |
| TinyRiscV64.VM.ExecLoad | src/TinyRISCV64.h:331-345 | loads with the standard's extension, or faults |
| TinyRiscV64.VM.ExecStore | src/TinyRISCV64.h:347-358 | stores the low bytes, or faults and changes nothing |
| TinyRiscV64.VM.ExecAluImm | src/TinyRISCV64.h:360-377 | computes the standard's operation on the immediate |
| TinyRiscV64.VM.ExecAluImm32 | src/TinyRISCV64.h:379-395 | computes the standard's word operation on the immediate |
| TinyRiscV64.VM.MulDiv | src/TinyRISCV64.h:413-438 | the M extension, division by zero and overflow included |
| TinyRiscV64.VM.MulDiv32 | src/TinyRISCV64.h:456-476 | the M word operations; the one undefined case is reported |
| TinyRiscV64.VM.ExecAluReg | src/TinyRISCV64.h:397-440 | computes the standard's register operation or rejects the word |
| TinyRiscV64.VM.ExecAluReg32 | src/TinyRISCV64.h:442-480 | computes the standard's word operation or rejects the word |
| TinyRiscV64.VM.ExecSystem | src/TinyRISCV64.h:483-535 | break, semihosting bracket, stubs and rejections as the step says |
| TinyRiscV64.VM.Fetch | src/TinyRISCV64.h:250-255 | the word at the program counter, with slot 0 cleared and nothing else changed |
| TinyRiscV64.VM.ExecuteInstruction | src/TinyRISCV64.h:248-281 | with stale slot 0 and three regions, one instruction is the step on the flat memory |
| TinyRiscV64.VM.ExecuteProgram | src/TinyRISCV64.h:156-180 | the loop's result and its final state, after a fault too, are those of the run: every fetch in range, ended within the budget |
| TinyRiscV64.VM.RegisterSet | src/TinyRISCV64.h:118-123 | sets a register other than 0 in the visible file |
| TinyRiscV64.VM.StackPush | src/TinyRISCV64.h:135-140 | moves the stack pointer down and stores there |
| TinyRiscV64.VM.StackPop | src/TinyRISCV64.h:143-147 | moves it up and returns what lay there |
| Bits.OperatorBits | src/TinyRISCV64.h:407-411 | bit by bit, AND, OR and XOR of any numbers are the conjunction, the disjunction and the difference of the bits |
| Bits.TruncDivides | src/TinyRISCV64.h:418-432 | quotient and remainder satisfy the division equation; the remainder is smaller than the divisor and has the sign of the dividend |
| AluLaws.LogicalBits | src/TinyRISCV64.h:407-411 | the same for the results of the operations |
| AluLaws.LeftShiftBits | src/TinyRISCV64.h:404 | SLL moves every bit up by the shift amount modulo 64 and brings in zeros |
| AluLaws.RightShiftBits | src/TinyRISCV64.h:408 | SRL moves every bit down and brings in zeros |
| AluLaws.ArithmeticShiftBits | src/TinyRISCV64.h:409 | SRA moves every bit down and brings in the sign bit |
| AluLaws.SignedDivision | src/TinyRISCV64.h:418-434 | DIV and REM: the division equation with truncation, and the standard's results for a zero divisor and for overflow |
| AluLaws.SignedWordDivision | src/TinyRISCV64.h:459-472 | the same for DIVW and REMW as the standard has them |
| AluLaws.WordReading | src/TinyRISCV64.h:379-395 | a word result is the signed 32-bit number congruent to the exact one |
| AluLaws.WordBit | src/TinyRISCV64.h:379-395 | its low bits are those of the exact one |
| AluLaws.LeftShiftWordBits | src/TinyRISCV64.h:453 | SLLW moves every bit of the low half up and brings in zeros |
| AluLaws.RightShiftWordBits | src/TinyRISCV64.h:454 | SRLW moves them down and brings in zeros |
| AluLaws.ArithmeticShiftWordBits | src/TinyRISCV64.h:455 | SRAW moves them down and brings in bit 31 |
| AluLaws.SignedOrder | src/TinyRISCV64.h:405-406 | SLT decides by the sign bits, and by SLTU where they agree |
| AluLaws.BranchesCompare | src/TinyRISCV64.h:315-329 | the branches decide by SUB, SLT and SLTU, and come in opposite pairs |
| AluLaws.AddThenSub | src/TinyRISCV64.h:402-403 | ADD and SUB undo each other, also on words |
| AluLaws.JumpIsEven | src/TinyRISCV64.h:261-265 | JALR goes to the sum without its lowest bit and leaves the address behind it |
| AluLaws.LoadedValue | src/TinyRISCV64.h:331-345 | a load yields the number of its signed or unsigned range that is congruent to the bytes |
| Dnp3Bytecode.Assembled | Examples/SwitchBytecode/README.md:63-98 | the fourteen published words are the instructions of the listing |
| Dnp3Bytecode.RunOnPacket | Examples/SwitchBytecode/README.md:84-97 | from any state that meets the calling convention the program returns 0 and stores the addresses exactly on DNP3 packets, and -1 otherwise |
| SwitchAddress.PacketRun | src/MiniPlex.cpp:225-244 | the outcome on any packet, and that nothing below the stack changes |
| SwitchAddress.GetSrcDst | src/MiniPlex.cpp:225-244 | succeeds exactly on packets of 10 bytes or more that start 05 64, with the words at 6 and 4; program and packet are unchanged |
| SwitchAddress.GetAll | src/MiniPlex.cpp:225-244 | the same for every packet of a sequence on one machine |
| SwitchPackets.Receive | src/MiniPlex.cpp:134-244 | a packet, from its bytes: in switch mode the program runs on it, and plex and posts are those of the step with the addresses it finds |
| SwitchPackets.Dnp3Sticky | src/MiniPlex.cpp:187-244 | accepted DNP3 packets that agree in bytes 6 and 7, from different branches, are a timeout apart |
| SwitchPackets.Dnp3Learns | src/MiniPlex.cpp:187-244 | for a timeout, accepted packets to the address in those bytes go to that branch alone |
| HeaderAddresses.GetAddrs | Examples/SwitchBytecode/SwitchDNP3_CRC.c:5-25 | reads the addresses exactly when the header is complete, its length within the buffer and its checksum right |
| HeaderAddresses.FramesAreReadable | Examples/SwitchBytecode/SwitchDNP3_CRC.c:5-25 | every link frame yields the addresses it was built with |
| HeaderAddresses.DamageIsNotRead | Examples/SwitchBytecode/SwitchDNP3_CRC.c:12-24 | a header damaged in two adjacent bytes is not read |
| Crc.TableIsBitwise | src/ProtoConv/DNP3FrameChecker.cpp:54-88 | every table entry is eight bitwise steps with the polynomial 0xA6BC |
| Crc.StepIsBitwise | src/ProtoConv/DNP3FrameChecker.cpp:90-94 | a table step is the bitwise step for every state and byte |
| Crc.ComputeCRC | Examples/SwitchBytecode/SwitchDNP3_CRC.c:27-40 | the bit loop computes the table step |
| Crc.BurstDetected | src/ProtoConv/DNP3FrameChecker.cpp:46-114 | every error confined to two adjacent bytes of a block and its checksum is rejected, for every length |
| Crc.CrcCcitt | src/ProtoConv/FrameChecker.h:54-63 | the nested loops compute the CRC of the bytes from 0xFFFF |
| CcittBursts.CheckValue | src/ProtoConv/FrameChecker.h:54-63 | the CRC of the digits 1 to 9 is 0x29B1 |
| CcittBursts.SampleTrailer | src/ProtoConv/ProtoConv.cpp:195-221 | a whole trailer, byte for byte: delimiter, number and CRC with the low bytes first |
| CcittBursts.TrailerBursts | src/ProtoConv/DelimFrameChecker.h:32-79 | of the changes to two adjacent bytes of a trailer that leave the delimiter, exactly the change by 0x89 and 0xA1 of the last byte of the number and the first of the CRC goes unnoticed |
| CcittBursts.EndsAtWindow | src/ProtoConv/DelimFrameChecker.h:32-79 | a trailer is seen by its ten bytes alone, wherever it stands |
| Dnp3Frame.StartBytesOffset | src/ProtoConv/DNP3FrameChecker.cpp:21-43 | the first place where the start bytes are, or may begin |
| Dnp3Frame.CRCCheck | src/ProtoConv/DNP3FrameChecker.cpp:46-114 | accepts exactly a block followed by its checksum, and returns the byte asked for |
| Dnp3Frame.CRCCheckedLength | src/ProtoConv/DNP3FrameChecker.cpp:116-131 | the frame length of a right header, 0 otherwise |
| Dnp3Frame.FrameLengthIs | src/ProtoConv/DNP3FrameChecker.cpp:124-128 | for LEN from 5 it is 10 + user + 2 * ceil(user / 16), at most 292; below 5 it is beyond any buffer |
| Dnp3Frame.CheckBlocks | src/ProtoConv/DNP3FrameChecker.cpp:197-218 | the block loop tiles the body and stops at the first bad block |
| Dnp3Frame.CheckFrame | src/ProtoConv/DNP3FrameChecker.cpp:146-232 | the verdict: wait, so many unframed bytes, or a frame with its addresses and transport bits |
| Dnp3Frame.BuildLength | src/ProtoConv/DNP3FrameChecker.cpp:116-131 | the length computed from the header is the length of the frame |
| Dnp3Frame.BuildIsAccepted | src/ProtoConv/DNP3FrameChecker.cpp:146-232 | every frame of the format is accepted and reported right, whatever follows |
| Dnp3Frame.AcceptedIsBuild | src/ProtoConv/DNP3FrameChecker.cpp:146-232 | whatever is accepted is a frame of the format |
| Dnp3Frame.AcceptsExactly | src/ProtoConv/DNP3FrameChecker.cpp:146-232 | acceptance if and only if the buffer begins with a frame of the format |
| Resync.VerdictIs | src/ProtoConv/DNP3FrameChecker.cpp:146-232 | the verdict where the start bytes stand: 2 bytes given up without a header, up to the first corrupt block with one, else a frame or waiting |
| Resync.ScannerIsPlain | src/ProtoConv/DNP3FrameChecker.cpp:146-232 | in every stream the scanner finds exactly the frames, at their places, of a plain scan that looks for a header at every byte |
| Resync.FrameFound | src/ProtoConv/DNP3FrameChecker.cpp:161-168 | a frame behind any bytes is found if no header with a right checksum comes first, as after a false start |
| Resync.FrameFoundBehindCorrupt | src/ProtoConv/DNP3FrameChecker.cpp:195-230 | so is a frame at or behind the first corrupt block of another |
| Resync.FirstBadIs | src/ProtoConv/DNP3FrameChecker.cpp:195-218 | the place given up to is the first block that does not check, with all before it right |
| Resync.CheckValue | src/ProtoConv/DNP3FrameChecker.cpp:46-114 | the DNP3 CRC of the digits 1 to 9 is 0xEA82 |
| Resync.SampleVerdict | src/ProtoConv/DNP3FrameChecker.cpp:146-232 | a whole header-only frame, byte for byte, and what is reported for it |
| Resync.SampleTransport | src/ProtoConv/DNP3FrameChecker.cpp:199-203 | which bits of the transport octet are FIN, FIR and number |
| DelimFrame.CheckFrame | src/ProtoConv/DelimFrameChecker.h:32-79 | the scan finds the first valid trailer, or cuts at 64K, or waits |
| DelimFrame.SearchIsFirst | src/ProtoConv/DelimFrameChecker.h:32-79 | no valid trailer ends before the reported place |
| DelimFrame.CheckStable | src/ProtoConv/DelimFrameChecker.h:32-79 | an answer is not changed by later bytes |
| DelimFrame.EncodeEnds | src/ProtoConv/ProtoConv.cpp:195-221 | an encoded datagram ends in a valid trailer with its number |
| DelimFrame.Value4RoundTrip | src/ProtoConv/ProtoConv.cpp:209-211 | 32-bit numbers survive their four bytes |
| DelimFrame.FrameRoundTrip | src/ProtoConv/DelimFrameChecker.h:32-79 | the datagram comes back from the front of any stream if and only if no valid trailer ends earlier |
| DelimFrame.LargestPayload | src/ProtoConv/DelimFrameChecker.h:32-79 | without a trailer in it a payload comes back if and only if it has at most 65526 bytes |
| StreamReader.ScanFits | src/ProtoConv/ProtoConv.cpp:163-167 | neither scanner claims more than there is: the guard for oversized claims never acts |
| StreamReader.Reader.RcvStreamHandler | src/ProtoConv/ProtoConv.cpp:158-182 | the loop ends and hands on exactly the frames that can be taken off the front |
| StreamReader.Reader.Receive | src/ProtoConv/SerialPortsManager.cpp:197-210 | a read appends its bytes and the frames are taken |
| StreamReader.Conserves | src/ProtoConv/ProtoConv.cpp:158-182 | the frames' bytes and the residue are the input, and the residue holds no further frame |
| StreamReader.Residue | src/ProtoConv/ProtoConv.cpp:158-182 | the residue is below 64K; with DNP3 it is below 292 bytes unless it begins with a short header |
| Chunks.ReceiveAll | src/ProtoConv/SerialPortsManager.cpp:197-210 | read after read, the reader does what feeding the chunks says |
| Chunks.DelimAppend | src/ProtoConv/ProtoConv.cpp:158-182 | taking frames early changes nothing |
| Chunks.DelimChunks | src/ProtoConv/ProtoConv.cpp:158-182 | with delimiters, frames and residue are the same for every cutting of the stream |
| Chunks.VerdictStable | src/ProtoConv/DNP3FrameChecker.cpp:146-232 | a verdict on what starts like a frame is not changed by later bytes |
| Chunks.Dnp3Append | src/ProtoConv/ProtoConv.cpp:158-182 | taking DNP3 frames early finds the same frames at the same places |
| Chunks.Dnp3Chunks | src/ProtoConv/DNP3FrameChecker.cpp:146-232 | positions, lengths, addresses and transport bits of the valid frames and the residue are the same for every cutting |
| Stalls.ShortIdles | src/ProtoConv/DNP3FrameChecker.cpp:116-181 | from a short header at a frame boundary on, no later bytes bring a frame or free a byte |
| Stalls.LongResidueIsShortHeader | src/ProtoConv/ProtoConv.cpp:158-182 | a residue of 292 bytes or more means that a short header stands at a frame boundary of the input |
| Stalls.StallsExactly | src/ProtoConv/DNP3FrameChecker.cpp:116-181 | the scanner stops for good if and only if a short header stands at a frame boundary |
| Stalls.ShortHeaderSwallows | src/ProtoConv/DNP3FrameChecker.cpp:124 | a concrete header of length 4 with its checksum, which swallows every stream |
| PriorityQueue.Queue.Top | src/ProtoConv/DelimFragHandler.h:72 | some element; where the comparator is a strict weak order on what is held, one that no other exceeds |
| IndexedQueue.TopIsLeast | src/ProtoConv/DelimFragHandler.h:26-36 | where the comparator agrees with the list, the top is the earliest held element |
| DelimReorder.CmpIsOrder | src/ProtoConv/DelimFragHandler.h:26-36 | within a window below 2^31 - 1 the comparator is the order of the frames, across wrap-around |
| DelimReorder.DelimFragHandler.constructor | src/ProtoConv/DelimFragHandler.h:53-58 | the first expected number is 0 and nothing is held |
| DelimReorder.DelimFragHandler.Enqueue | src/ProtoConv/DelimFragHandler.h:70-76 | queues a frame and notes when the top changes |
| DelimReorder.DelimFragHandler.PopInSequence | src/ProtoConv/DelimFragHandler.h:94-99 | writes tops as long as they are expected |
| DelimReorder.DelimFragHandler.HandleFrame | src/ProtoConv/DelimFragHandler.h:59-104 | one frame, with the jump for overflow or timeout |
| DelimReorder.LoneFrame | src/ProtoConv/DelimFragHandler.h:78-92 | a frame out of turn on an empty queue jumps, and moves the expected number, exactly when it may not wait |
| DelimReorder.StepConserves | src/ProtoConv/DelimFragHandler.h:59-104 | nothing lost or invented, the bound kept, the top not the expected frame; no assumption on numbers |
| DelimReorder.RunConserves | src/ProtoConv/DelimFragHandler.h:59-104 | over every run, received is written plus held, at most the maximum is held, and the head is not the expected frame |
| DelimReorder.DrainedInOrder | src/ProtoConv/DelimFragHandler.h:94-99 | the pop loop writes the held frames from the expected one on, in order |
| DelimReorder.StepProgress | src/ProtoConv/DelimFragHandler.h:59-104 | what a step writes and holds when it does not jump, and when it does not |
| DelimReorder.JumpWrites | src/ProtoConv/DelimFragHandler.h:78-99 | a jump writes another frame in the place of the missing one |
| DelimReorder.InOrderUnlessJump | src/ProtoConv/DelimFragHandler.h:59-104 | whatever the waits, all frames are written in order if and only if the handler never jumps |
| DelimReorder.InOrder | src/ProtoConv/DelimFragHandler.h:59-104 | without timeouts, all frames are written in order if and only if no frame is overtaken by more than the maximum, which is when the handler never jumps; none is held back then |
| InTime.StaleIff | src/ProtoConv/DelimFragHandler.h:72-76 | the noted time of the top says when the head of the arrivals became the head, so the wait guard is a condition on the arrival times |
| InTime.StepInTime | src/ProtoConv/DelimFragHandler.h:72-92 | a step times out if and only if the missing frame is still missing, the held ones fit the queue and the head is stale |
| InTime.InOrderExactly | src/ProtoConv/DelimFragHandler.h:59-104 | from the arrivals and their times alone: written in order if and only if few overtake and no head is stale |
| InTime.PromptNotStale | src/ProtoConv/DelimFragHandler.h:86-92 | no head is stale when every overtaken frame follows within the wait |
| InTime.InOrderInTime | src/ProtoConv/DelimFragHandler.h:59-104 | with every overtaken frame following in time, written in order if and only if no frame is overtaken by more than the maximum |
| LateFrames.TopIsLateIff | src/ProtoConv/DelimFragHandler.h:26-36 | the top is behind the expected frame if and only if a held frame is |
| LateFrames.LateHoldsUp | src/ProtoConv/DelimFragHandler.h:78-99 | while a late frame is held, a step without a jump writes nothing |
| LateFrames.WritesLateExactly | src/ProtoConv/DelimFragHandler.h:59-104 | a step writes a late frame if and only if one is held or arrives and the overflow or wait guard holds |
| LateFrames.DrainReaches | src/ProtoConv/DelimFragHandler.h:94-99 | how far the pop loop gets: past a number exactly when the held frames bridge the way, none but the last twice |
| LateFrames.MovesBackExactly | src/ProtoConv/DelimFragHandler.h:59-104 | the expected number ends up behind where it was if and only if, besides, the frames do not bridge the gap |
| LateFrames.NeverLateExactly | src/ProtoConv/DelimFragHandler.h:59-104 | the same over runs |
| LateFrames.HeldUp | src/ProtoConv/DelimFragHandler.h:59-104 | a late frame holds up all output until the first jump |
| LateFrames.HeldUpUntilFull | src/ProtoConv/DelimFragHandler.h:81-85 | without timeouts the jump comes exactly when the arrivals fill the queue |
| LateFrames.DuplicateMovesBack | src/ProtoConv/DelimFragHandler.h:59-104 | a run in which a duplicate withholds the expected frame, is written again and moves the expected number back |
| Dnp3Reorder.CmpIsOrder | src/ProtoConv/DNP3FragHandler.h:27-43 | up to 34 fragments the comparator is their order, FIR first and FIN last |
| Dnp3Reorder.LimitIs34 | src/ProtoConv/DNP3FragHandler.h:27-43 | the comparator orders the fragments of n-fragment messages if and only if n is at most 34 |
| Dnp3Reorder.TransportFlow.PopAll | src/ProtoConv/DNP3FragHandler.cpp:99-103 | writes the whole queue, top by top |
| Dnp3Reorder.TransportFlow.Flush | src/ProtoConv/DNP3FragHandler.cpp:96-112 | writes what is held, then the saved frame, and clears the flags |
| Dnp3Reorder.TransportFlow.QueueFragment | src/ProtoConv/DNP3FragHandler.cpp:55-66 | records and queues a fragment |
| Dnp3Reorder.TransportFlow.HandleFragment | src/ProtoConv/DNP3FragHandler.cpp:46-75 | a duplicate flushes first, a complete set flushes after |
| Dnp3Reorder.TransportFlow.HandleFrame | src/ProtoConv/DNP3FragHandler.cpp:44-91 | one frame of a flow, unfragmented ones included |
| Dnp3Reorder.StepKeeps | src/ProtoConv/DNP3FragHandler.cpp:44-112 | the recorded numbers and flags agree with the queue, a saved frame waits behind fragments only, at most 64 are held |
| Dnp3Reorder.StepConserves | src/ProtoConv/DNP3FragHandler.cpp:44-112 | nothing lost or invented, whatever the numbers |
| Dnp3Reorder.RunConserves | src/ProtoConv/DNP3FragHandler.cpp:44-112 | both over every run |
| Dnp3Reorder.CompleteIff | src/ProtoConv/DNP3FragHandler.cpp:69-70 | the count test holds exactly when all fragments are there |
| Dnp3Reorder.EmptiedInOrder | src/ProtoConv/DNP3FragHandler.cpp:99-103 | the flush writes the held fragments in order |
| Dnp3Reorder.AnyOrder | src/ProtoConv/DNP3FragHandler.cpp:46-75 | a message of 2 to 34 fragments in any arrival order is written whole at the last arrival and not before |
| Dnp3Reorder.SavedFollows | src/ProtoConv/DNP3FragHandler.cpp:76-111 | an unfragmented frame that arrives among the fragments waits and is written right after the message |
| Dnp3Recovery.DuplicateRestarts | src/ProtoConv/DNP3FragHandler.cpp:46-67 | a duplicate writes what is held and the saved frame, and the flow goes on as an idle one to which it comes first |
| Dnp3Recovery.RecoversFrom | src/ProtoConv/DNP3FragHandler.cpp:46-75 | from whatever is held, a message whose first arrival is a duplicate comes out whole at its last arrival, behind what was held and the saved frame |
| Dnp3Recovery.SecondUnfragmented | src/ProtoConv/DNP3FragHandler.cpp:76-91 | a second unfragmented frame is written behind what was held and the saved one |
| Dnp3Recovery.EmptiedKept | src/ProtoConv/DNP3FragHandler.cpp:96-112 | whichever fragments of a message are held, the flush writes them in their order |
| Dnp3Recovery.DuplicateIff | src/ProtoConv/DNP3FragHandler.cpp:48-52 | with what came of a message held, the next fragment counts as a duplicate if and only if it repeats its FIR, its FIN or one of its numbers |
| Dnp3Recovery.LossyMessages | src/ProtoConv/DNP3FragHandler.cpp:44-112 | messages with lost fragments, one after the other: whole ones are written whole, what came of the others in its order before the next |
| Dnp3Recovery.JoinsLeft | src/ProtoConv/DNP3FragHandler.cpp:48-75 | a fragment that repeats nothing joins what is left of the other message |
| Dnp3Recovery.MixedHolds | src/ProtoConv/DNP3FragHandler.cpp:48-75 | a run in which a whole message is withheld because it repeats nothing of what was left before it |
| Dnp3Recovery.LossyInterleaved | src/ProtoConv/DNP3FragHandler.cpp:20-112 | the same on one flow of many |
| Dnp3Limit.SecondFirst | src/ProtoConv/DNP3FragHandler.cpp:46-112 | a run of any message of 35 or more fragments in which the second fragment comes out before the first |
| Dnp3Limit.MessageLimit | src/ProtoConv/DNP3FragHandler.cpp:46-112 | messages of n fragments come out as they were sent, in every arrival order and from every queue within its contract, if and only if n is at most 34 |
| Dnp3Flows.DNP3FragHandler.FlowOf | src/ProtoConv/DNP3FragHandler.cpp:38-43 | a flow is made at its first frame and found afterwards |
| Dnp3Flows.DNP3FragHandler.Dispatch | src/ProtoConv/DNP3FragHandler.cpp:44-91 | one flow's step leaves the others as they are |
| Dnp3Flows.DNP3FragHandler.HandleFrame | src/ProtoConv/DNP3FragHandler.cpp:26-94 | unframed data passes, other frames go to their flow |
| Dnp3Flows.FlowsApart | src/ProtoConv/DNP3FragHandler.cpp:26-94 | a flow's state is what its own frames alone lead to |
| Dnp3Flows.MessagesInOrder | src/ProtoConv/DNP3FragHandler.cpp:44-112 | messages one after the other, each with its fragments in any order, are written whole and in order |
| Dnp3Flows.InterleavedMessages | src/ProtoConv/DNP3FragHandler.cpp:26-94 | any sequence of messages on a flow comes out whole and in order whatever other flows do in between |
| ProtoConv.ProtoConv.AddDelim | src/ProtoConv/ProtoConv.cpp:195-221 | appends delimiter, number and CRC and counts modulo 2^32; nothing for delimiter 0 |
| ProtoConv.ProtoConv.RcvUDPHandler | src/ProtoConv/ProtoConv.cpp:145-156 | a datagram is framed with the next number and handed to the ports |
| SerialPorts.SerialPortsManager.constructor | src/ProtoConv/SerialPortsManager.cpp:21-39 | every port starts idle |
| SerialPorts.SerialPortsManager.Write | src/ProtoConv/SerialPortsManager.cpp:212-232 | an idle port takes the message, else it queues, and the oldest goes from a full queue |
| SerialPorts.SerialPortsManager.WriteTo | src/ProtoConv/SerialPortsManager.cpp:235-241 | the message follows what the port was given before |
| SerialPorts.SerialPortsManager.Complete | src/ProtoConv/SerialPortsManager.cpp:241-256 | the port takes the oldest waiting message or becomes idle |
| SerialPorts.SentOk | src/ProtoConv/SerialPortsManager.cpp:212-232 | no port idle twice, none idle while a message waits, the queue bounded |
| SerialPorts.CompletedOk | src/ProtoConv/SerialPortsManager.cpp:241-256 | the same for completions |
| SerialPorts.RunPlaces | src/ProtoConv/SerialPortsManager.cpp:212-258 | over every run each message is on exactly one port, waiting or dropped, each in the order handed over |
| SerialPorts.DropsExactly | src/ProtoConv/SerialPortsManager.cpp:212-232 | over every run a message is dropped if and only if one comes while all ports are busy and the queue is full, and it is the oldest |
| EndToEnd.StreamRoundTrip | src/ProtoConv/ProtoConv.cpp:158-221 | a stream of numbered frames in any chunks yields the payloads with consecutive numbers |
| EndToEnd.ChainedIsNotClean | src/ProtoConv/DelimFrameChecker.h:32-79 | a payload that was framed before is not clean: it comes out as its inner payload and an empty one |
| EndToEnd.WireNext | src/ProtoConv/ProtoConv.cpp:195-221 | each datagram is framed with the number after the last one |
| EndToEnd.ArriveAll | src/ProtoConv/ProtoConv.cpp:158-182 | whatever the interleaving of the ports, every frame arrives exactly once |
| EndToEnd.Delivers | src/ProtoConv/ProtoConv.cpp:145-221 | over any ports, completions, chunks and interleaving, the frames are written in the order of the datagrams if and only if no frame is overtaken by more than the queue holds and no head waits too long, which is when the handler never jumps |
| TimeoutCache.TimeoutCache.Add | src/TimeoutCache.h:49-71 | refreshes, adds at the end, or drops when full |
| TimeoutCache.TimeoutCache.Erase | src/TimeoutCache.h:94 | removes one key from the list, in place |
| TimeoutCache.TimeoutCache.TimerHandler | src/TimeoutCache.h:77-97 | re-arms, or forgets the key and posts its notification |
| TimeoutCache.AddedOk | src/TimeoutCache.h:49-71 | list and map keep the same keys, none twice, not too many, no timer due too late |
| TimeoutCache.FiredOk | src/TimeoutCache.h:77-97 | the same for timers |
| TimeoutCache.OrderKept | src/TimeoutCache.h:94 | the other keys keep their insertion order |
| TimeoutCache.ForgottenOnlyIdle | src/TimeoutCache.h:77-97 | a key goes if and only if its own timer fires after a full idle timeout |
| TimeoutCache.IdleIsForgotten | src/TimeoutCache.h:77-97 | after the idle timeout the timer is due, and firing forgets the key |
| TimeoutCache.FireKeepsHead | src/TimeoutCache.h:77-97 | the head stays the head until a timeout after its last addition |
| TimeoutCache.HeadAfterAdd | src/TimeoutCache.h:49-71 | after an addition the list is not empty; a head that is the added key was added now |
| CacheRuns.AdditionExactly | src/TimeoutCache.h:49-71 | an addition is dropped if and only if the key is new and the cache full; else the key is held as added now, last if new |
| CacheRuns.RearmedLater | src/TimeoutCache.h:82-91 | a timer that keeps its key is set to the end of the idle time, which is ahead |
| CacheRuns.AccessIsLast | src/TimeoutCache.h:49-97 | over runs an entry tells when its key was last added |
| CacheRuns.GoesExactly | src/TimeoutCache.h:77-97 | over runs a key goes if and only if its own timer fires a full timeout after its last addition |
| CacheRuns.HeldForTimeout | src/TimeoutCache.h:49-97 | a key that was added and not dropped is held for a timeout |
| Forwarding.StepCachesOk | src/MiniPlex.cpp:134-338 | every step keeps all caches in order |
| Forwarding.StepBranchesOk | src/MiniPlex.cpp:28-38 | every step leaves each fixed branch active, listed inactive or with a pending notification |
| Forwarding.SwitchHead | src/MiniPlex.cpp:199-204 | the head that is looked at exists |
| ForwardingRuns.RunOk | src/MiniPlex.cpp:28-338 | both invariants in every reachable state |
| ForwardingRuns.HeadUntil | src/MiniPlex.cpp:276-338 | the head of a branch list stays until a timeout has passed |
| ForwardingRuns.AcceptsExactly | src/MiniPlex.cpp:199-210 | a packet is accepted if and only if its address has no branch yet or is on the sender's |
| ForwardingRuns.ForwardedIsAccepted | src/MiniPlex.cpp:199-222 | whatever is forwarded was accepted |
| ForwardingRuns.SwitchSticky | src/MiniPlex.cpp:187-222 | packets of one source address accepted from different branches, forwarded anywhere or not, are a timeout apart |
| ForwardingRuns.PruneHead | src/MiniPlex.cpp:168-185 | the list is not empty, and who reaches the trunk is its head |
| ForwardingRuns.PruneSticky | src/MiniPlex.cpp:168-185 | packets forwarded to the trunk from different branches are a timeout apart |
| ForwardingRuns.SwitchLearns | src/MiniPlex.cpp:187-222 | for a timeout after a packet from an address was accepted, an accepted packet to that address from elsewhere goes to that packet's branch alone |
| ForwardingRuns.PruneAnswers | src/MiniPlex.cpp:177-182 | for a timeout after a branch spoke to the trunk, the trunk's packets go to that branch alone |
| ForwardingRuns.PruneToFixed | src/MiniPlex.cpp:177-179 | with no active branch, each fixed branch gets one copy from the trunk |
| ForwardingRuns.CopiesToAll | src/MiniPlex.cpp:151-155 | how many copies each endpoint gets |
| ForwardingRuns.OverlapIsLate | src/MiniPlex.cpp:32-38 | active and inactive branches come to overlap exactly by a notification that runs after re-activation |
| ForwardingRuns.ApartUnlessLate | src/MiniPlex.cpp:32-38 | over runs: no overlap if and only if no late notification |
| ForwardingRuns.OneCopyEach | src/MiniPlex.cpp:151-166 | without late notifications every active or inactive branch but the sender gets exactly one copy, the others none |
| ForwardingRuns.NeverBack | src/MiniPlex.cpp:258-273 | nothing is sent back to the sender, in any mode |
| ForwardingRuns.BranchesToTrunk | src/MiniPlex.cpp:157-185 | a branch's packet goes to the trunk once, or nowhere when pruned |
| ForwardingRuns.RaceDuplicates | src/MiniPlex.cpp:32-38 | a run in which a fixed branch gets a packet twice |
| Routing.PruneExactly | src/MiniPlex.cpp:168-185 | a branch's packet goes to the trunk once if and only if nobody was active or the sender was first, and else nowhere |
| Routing.PruneSpeaks | src/MiniPlex.cpp:168-185 | for a timeout after a branch's packet went to the trunk each of its packets goes there, once |
| Routing.PruneToHead | src/MiniPlex.cpp:177-182 | the trunk's packets go to the head of the branch list while there is one |
| Routing.SwitchExactly | src/MiniPlex.cpp:187-222 | where a packet goes, by what was known of its two addresses; no list but its source's changes |
| Routing.NeverSpoken | src/MiniPlex.cpp:302-338 | nobody is associated with an address from which no packet has come |
| Routing.UnknownToAll | src/MiniPlex.cpp:212-218 | an accepted packet to such an address goes to every active and inactive branch, but not back |
| MiniPlex.MiniPlex.constructor | src/MiniPlex.cpp:28-94 | all fixed branches start inactive |
| MiniPlex.MiniPlex.Forward | src/MiniPlex.cpp:258-273 | one post for each listed endpoint but the sender |
| MiniPlex.MiniPlex.ForwardSet | src/MiniPlex.cpp:258-273 | the same for a set, in any order of iteration |
| MiniPlex.MiniPlex.Branches | src/MiniPlex.cpp:276-299 | the sender is added or refreshed, and no longer inactive when new |
| MiniPlex.MiniPlex.CacheFor | src/MiniPlex.cpp:305-314 | an address's cache is made when it is missing |
| MiniPlex.MiniPlex.AddressBranches | src/MiniPlex.cpp:302-338 | and the sender associated with it if asked |
| MiniPlex.MiniPlex.Hub | src/MiniPlex.cpp:151-155 | to active and inactive branches |
| MiniPlex.MiniPlex.Trunk | src/MiniPlex.cpp:157-166 | from the trunk to all, from others to the trunk |
| MiniPlex.MiniPlex.Prune | src/MiniPlex.cpp:168-185 | only the first branch speaks to the trunk and hears it |
| MiniPlex.MiniPlex.Switch | src/MiniPlex.cpp:187-222 | both address lists are brought up to date, then the packet is routed |
| MiniPlex.MiniPlex.Route | src/MiniPlex.cpp:202-221 | to the destination's branch, to all, or nowhere |
| MiniPlex.MiniPlex.RcvHandler | src/MiniPlex.cpp:134-149 | a packet is one step of the plex |
| MiniPlex.MiniPlex.BranchTimerFired | src/TimeoutCache.h:77-97 | so is a branch timer |
| MiniPlex.MiniPlex.AddressTimerFired | src/TimeoutCache.h:77-97 | and an address timer |
| MiniPlex.MiniPlex.NotifyTimeout | src/MiniPlex.cpp:32-38 | and a posted notification |
| TcpWriter.TCPSocketManager.PushBack | src/ProtoConv/TCPSocketManager.cpp:135-145 | queues a buffer and drops the oldest from a full queue |
| TcpWriter.TCPSocketManager.Write | src/ProtoConv/TCPSocketManager.cpp:127-203 | writes directly when connected and idle, else queues |
| TcpWriter.TCPSocketManager.WriteBuffer | src/ProtoConv/TCPSocketManager.cpp:360-422 | dispatches leftovers first, else swaps the buffers |
| TcpWriter.TCPSocketManager.Drain | src/ProtoConv/TCPSocketManager.cpp:389-400 | the loop takes the written bytes off the dispatched buffers |
| TcpWriter.TCPSocketManager.CheckLastWrite | src/ProtoConv/TCPSocketManager.cpp:320-335 | keeps writing on the present connection only |
| TcpWriter.TCPSocketManager.WriteCompleted | src/ProtoConv/TCPSocketManager.cpp:163-187 | what a write took is sent, the rest kept |
| TcpWriter.TCPSocketManager.ConnectCompletionHandler | src/ProtoConv/TCPSocketManager.cpp:424-470 | the first connection is used, a redundant one ignored |
| TcpWriter.TCPSocketManager.Open | src/ProtoConv/TCPSocketManager.cpp:205-209 | opening clears the manual close |
| TcpWriter.TCPSocketManager.Close | src/ProtoConv/TCPSocketManager.cpp:76-91 | a manual close stops new direct writes |
| TcpWriter.TCPSocketManager.AutoClose | src/ProtoConv/TCPSocketManager.cpp:570-611 | the posted close ends the connection |
| TcpRuns.ConsumeFlat | src/ProtoConv/TCPSocketManager.cpp:389-400 | what remains is the bytes after the written ones, inside a buffer too |
| TcpRuns.StepBalanced | src/ProtoConv/TCPSocketManager.cpp:127-470 | no step loses or makes up a byte |
| TcpRuns.RunBalanced | src/ProtoConv/TCPSocketManager.cpp:127-470 | over every run each accepted byte is sent, being written, dispatched, queued or dropped, exactly once; the buffers are bounded |
| TcpRuns.DropsExactly | src/ProtoConv/TCPSocketManager.cpp:135-145 | over every run a buffer is dropped if and only if one joins a full queue, and it is the oldest |
| TcpOrder.StepOrdered | src/ProtoConv/TCPSocketManager.cpp:127-470 | a tidy step keeps sent, in-flight, dispatched and queued bytes in accepted order |
| TcpOrder.RunOrdered | src/ProtoConv/TCPSocketManager.cpp:127-470 | over tidy runs the sent bytes are a prefix of the accepted buffers minus whole dropped ones |
| TcpOrder.StepCalm | src/ProtoConv/TCPSocketManager.cpp:131-145 | a step makes a direct write pass buffered data possible exactly by opening a connection not yet closed or completing a write of an older one |
| TcpOrder.CalmUnlessBroken | src/ProtoConv/TCPSocketManager.cpp:131-145 | the same for runs, both ways |
| TcpOrder.CalmWithout | src/ProtoConv/TCPSocketManager.cpp:131-145 | without overlapping connections and early opening, direct writes never pass buffered data |
| TcpOrder.WholeBuffersInOrder | src/ProtoConv/TCPSocketManager.cpp:127-470 | with no write error, no connection made during an outstanding write and no early opening, the sent bytes are a prefix of the accepted buffers minus whole dropped ones |
| TcpOrder.OverlapReorders | src/ProtoConv/TCPSocketManager.cpp:418-421 | a run that reorders: a connection made during an outstanding write |
| TcpOrder.ReopenReorders | src/ProtoConv/TCPSocketManager.cpp:205-209 | a run that reorders: opening before the posted close has run |
| TcpOrder.ShortReorders | src/ProtoConv/TCPSocketManager.cpp:163-185 | a run that reorders: a direct write cut short with a buffer queued behind it |
| TcpSequence.StepKeepsOrder | src/ProtoConv/TCPSocketManager.cpp:127-470 | one step keeps the bytes, sent and on their way, in accepted order if and only if it passes none |
| TcpSequence.InOrderExactly | src/ProtoConv/TCPSocketManager.cpp:127-470 | over runs, of the bytes sent and on their way: in order if and only if no direct write starts while data is buffered and none is cut short with data behind it |
| TcpSequence.OnlyDroppedMissing | src/ProtoConv/TCPSocketManager.cpp:127-470 | exactly the dropped bytes are missing from what was accepted |
| TcpSequence.SentInOrder | src/ProtoConv/TCPSocketManager.cpp:127-470 | in terms of connections: no overlap, no early opening and no cut-short direct write with data behind it |
| TcpSequence.LineIsSent | src/ProtoConv/TCPSocketManager.cpp:320-422 | from a live connection completions lead to a state in which exactly what was sent or on its way has been sent, in the order of the line |
| TcpSequence.GoesOut | src/ProtoConv/TCPSocketManager.cpp:205-470 | the same from every state, after a new connection where there is none |
| TcpSequence.QuietKeepsLine | src/ProtoConv/TCPSocketManager.cpp:205-470 | no connection event and no completion without an error changes the order of the line |
| TcpSequence.SentInOrderExactly | src/ProtoConv/TCPSocketManager.cpp:127-470 | over runs, of the bytes sent: whatever the connection does from any state on they go out in accepted order, if and only if no direct write starts while data is buffered and none is cut short with data behind it |

## Left out

- TinyRiscV64.VM.ExecSystem: ECALL, semihosting and privileged instructions end the run as the base class has it; subclasses that override the handlers are not modelled.
- TinyRiscV64.VM.ExecuteProgram: an external halt request from another thread is not an event of the run.
- Machine.RunAgrees: compares up to the first word that is not a standard RV64IM encoding, overflowing REMW or semihosting call; the standard's exception for misaligned jump targets is not part of the step, since the machine has none.
- Multiply.MulhExact: is about the hand-written multiplication; the variant on a compiler's 128-bit type computes the specification directly.
- TinyRiscV64.VM.MemPtr: the end of the address space is kept 16 addresses away from 2^64, which the size limits imply.
- TinyRiscV64.VM.ProgramLoad: reading the program from a file is not modelled; nor are `stack_peek` and `register_get`, which only read.
- Dnp3Frame.CheckFrame: requires a buffer below 2^61 bytes, as every buffer is.
- PriorityQueue.Queue.Top: the library's heap is replaced by a scan; where the comparator is not a strict weak order on what is held, the library promises nothing, and here any element may be the top.
- DelimReorder.InOrder: assumes that every frame arrives once and within a window below 2^31 - 1; late frames and duplicates are the subject of `LateFrames`.
- DelimReorder.DelimFragHandler.HandleFrame: one ordered step for unframed data too; the code writes unframed data before the strand, so it may pass frames that are posted and not handled yet.
- Dnp3Limit.MessageLimit: beyond 34 the run is one that the queue's contract allows; which order the library's heap gives there is not modelled.
- Dnp3Recovery.LossyMessages: says nothing of a message whose first arrival repeats nothing of what was left before it; the code then mixes the two.
- Dnp3Reorder.AnyOrder: starts from a flow that holds nothing; what happens from any other state is in `Dnp3Recovery`.
- SerialPorts.SerialPortsManager.Complete: a failed serial write is logged by the code and its bytes are lost on the line; the order of what is handed to the ports does not depend on it.
- EndToEnd.Delivers: takes as given that the lines carry the bytes unchanged and that nothing was dropped from the full write queue.
- MiniPlex.MiniPlex.RcvHandler: what the address program finds is a parameter, since the program is the user's; `SwitchPackets.Receive` has it from the packet's bytes for the DNP3 program.
- ProtoConv.ProtoConv.RcvUDPHandler: the stream is the serial ports; over TCP the same bytes go to the TCP writer, whose order is proved by itself.
- MiniPlex.MiniPlex.NotifyTimeout: one atomic step; the code runs it outside the processing strand, so on several threads it may also race on the set itself.
- TcpWriter.TCPSocketManager.Write: the optional write delay and throttling are not modelled; ProtoConv never enables them.
- TcpWriter.TCPSocketManager.CheckLastWrite: shutting down the sending side of a finished socket and reopening leave no trace in the model but the later events.
- TcpWriter.TCPSocketManager.ConnectCompletionHandler: a failed attempt changes nothing here; the started read and the posted close are later events.
- TcpWriter.TCPSocketManager.Open: resolving, accepting, connecting, backoff and retry timers are reduced to the events that a connection is made, opened or closed.
- TcpWriter.TCPSocketManager.Close: closing candidate sockets is not modelled, and the posted automatic close is an event of its own.
- TcpWriter.TCPSocketManager.AutoClose: shutting down or cancelling the socket shows only as the error of the write that is outstanding.
- TcpOrder.RunOrdered: its condition is on the states; `TcpOrder.WholeBuffersInOrder` has it on errors and connection events.
- TcpSequence.SentInOrderExactly: each byte is its own position in the accepted stream, and buffers are not empty; the writer never looks at the bytes.
- Sockets, serial device settings, keepalives, logging, command lines, benchmarks and text formatting.
- The VXLAN, WireGuard and flow-id sample programs.
- The null and nop frame checkers and handlers, which pass data through.
