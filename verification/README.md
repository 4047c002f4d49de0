# Verified model of GamingAnywhere's buffers, framing and parsers

GamingAnywhere streams games: a server encodes video and audio and takes input events, a client decodes.
This project models the parts of it that buffer, frame and parse bytes, and proves that they do what the
rest of the system relies on.

| file | what it models |
|---|---|
| `PacketQueue.dfy` | the encoder packet queue, a byte ring that stores packets in one piece and pads its end |
| `BitReader.dfy`, `SpsParser.dfy`, `NalParser.dfy` | the H.264 mini parser: bit reading, Exp-Golomb codes, the whole SPS, emulation prevention, start codes |
| `Crc5.dfy` | the two table-driven CRC5 checksums and the errors they detect |
| `Dpipe.dfy` | the frame pipe: free pool, output queue and eldest-frame eviction on linked lists |
| `ControlQueue.dfy` | the controller's ring of message slots, whose reader works outside the lock |
| `TcpStream.dfy` | the re-framing of length-prefixed messages out of a TCP stream |
| `AudioBuffer.dfy` | the compacting audio FIFO |
| `Bandwidth.dfy` | the bandwidth estimator's loss accounting under 16-bit sequence numbers |
| `Bytes.dfy`, `Wrappers.dfy` | byte strings, `bcopy`, optional results |

Each component appears twice. A value (`Ring`, `Pool`, `Queue`, `Rx`, `Audio`, `Record`) with functions is
the state between two critical sections and what a critical section makes of it; the lemmas are about these.
A class has the source's fields and updates them in place, with the source's loops, and every method's
contract equates the new state with that function of the old state. Every mutex-protected section is one
atomic step, and run-level lemmas quantify over arbitrary sequences of steps, hence over all interleavings.

Times, timestamps, received chunks and packet payloads are parameters. The H.264 printers follow ITU-T H.264
(sections 7.3.1, 7.3.2.1.1, 7.3.2.1.1.1, 7.3.2.11, 7.3.3, 7.4.1, 9.1, 9.1.1), the USB polynomial section 8.3.5.1 of
the USB 2.0 specification.

What the proofs found in the source:

- Packet queue: popping a packet without bytes from the front of a full ring resets the positions while data
  is live. `PopKeepsInvIff` says exactly which pop does this, and `BadPopLosesData` that it always leads to a loss:
  after it, some more pops and one accepted append change a message that is still queued. `EmptyPacketLosesData`
  gives a whole run, `NonemptyRunsAreClean` shows that runs without empty packets never do it.
- TCP framing: a refill while `bufhead` is not zero breaks the stream (`controller.cpp:433-435` does not move
  the leftover byte, `controller.cpp:447-449` moves the bytes but keeps `bufhead`). `StreamDelivered` holds for the
  loop that compacts on every refill, and for the loop as written when no chunk but the last ends a message and
  begins another. `StreamDeliveredIff` says that this is needed: the first chunk of a stream that does so costs the
  message that it begins, for some bytes of that message. (Not for all: stale bytes in the buffer can happen to be
  the right ones.) `AtFrontIffCleanCuts` and `RefillAppendsIff` say why: these are the cuts whose refills find
  `bufhead` at zero, and a refill that stays in the buffer appends whatever arrives only then.
  `SplitLengthLosesMessage` and `SplitBodyLosesMessage` give, for each of the two places, a stream of two messages
  that loses one.
- A message of length zero stops the loop for good at the front of the buffer (`ZeroStallsForever`); behind another
  message in the same chunk it makes the loop hand on that message again (`ZeroLengthRepeats`).
- Slices are read without unescaping; `EscapedSliceStream` shows that for the macroblock numbers of any level this
  makes no difference.
- Emulation prevention: a payload that ends in an odd number of zeros does not survive, since the 03 that the
  standard appends to it stays; `EncapsulateRoundTrip` is exact about this, and `LoneZeroComesBackLonger` an example.
- Audio: the queued bytes are those of the queued frames on every run exactly for the formats whose frame has a
  byte and whose dropped bits, over a full buffer, make less than a byte (`ExactIff`; `TwelveBitsDrift` is a run of
  two fills that fails). `bufPts` stays exact about the bytes read on every run exactly for the formats whose frame
  is a whole number of bytes (`PtsExactIff`).
- Picture size: cropping is always counted in units of two samples; `PictureSizeIff` and `CropUnitDecides` say
  when that is right, and `Crop444Differs` gives a cropped 4:4:4 picture that comes out eight rows short. The
  source stores `chroma_format_idc` 0 where the standard infers 1; the model keeps the source's value.
- Loss counting is exact if and only if true sequence numbers go up by 1 to 65536 (`WrapIff`); a jump of 65537
  counts no loss at all (`WholeTurnUncounted`). Reports then lose nothing: the losses reported and those still in
  the record add up to those of the whole run (`RunAccounts`). At the wrap to zero the source takes its loss
  branch, with a loss of zero, and skips one capacity sample.

## Model

| member | source | states |
|---|---|---|
| PacketQueue.Fresh | ga/core/encoder-common.cpp:404-427 | a new queue meets the invariant and is an empty FIFO |
| PacketQueue.AppendRefines | ga/core/encoder-common.cpp:479-529 | append succeeds iff there is room in bytes and the payload fits in one piece behind the tail or before the head; then exactly the payload with its stamp is added at the back, otherwise the FIFO is unchanged, and if only the place was missing the end of the buffer has been padded; the tiling invariant is kept |
| PacketQueue.RetryOnce | ga/core/encoder-common.cpp:485-504 | the jump back to the size check happens at most once per call, and its empty-list branch is unreachable |
| PacketQueue.LiveRegionsDisjoint | ga/core/encoder-common.cpp:485-520 | in a state that meets the invariant no two queued packets share a byte of the buffer |
| PacketQueue.StoreAtTailRefines | ga/core/encoder-common.cpp:505-520 | storing at the tail overwrites no byte of a queued packet |
| PacketQueue.SplitRefines | ga/core/encoder-common.cpp:570-593 | a split inside the first packet replaces it by two with its stamp whose bytes concatenate to its bytes; any other split changes nothing; occupied size and invariant are kept |
| PacketQueue.PopDropsFirst | ga/core/encoder-common.cpp:600-623 | pop removes exactly the first message |
| PacketQueue.PopKeepsInvIff | ga/core/encoder-common.cpp:608-620 | pop keeps the invariant iff it is not the pop of a spanless packet from a full ring whose head is not 0 |
| PacketQueue.RunRefinesFifo | ga/core/encoder-common.cpp:447-623 | over any interleaving of appends, splits, pops and resets without the bad pop the invariant holds, and the stamped bytes popped followed by those queued are exactly those accepted since the last reset; without splits this holds packet by packet |
| PacketQueue.QueueIsFifo | ga/core/encoder-common.cpp:404-623 | from a new queue of any size, over any interleaving without empty packets, the queue is a FIFO of stamped bytes and keeps its invariant |
| PacketQueue.NonemptyRunsAreClean | ga/core/encoder-common.cpp:600-623 | runs that append no empty packet never meet the bad pop |
| PacketQueue.BadPopLosesData | ga/core/encoder-common.cpp:600-623 | from every state of the invariant in which that pop is taken, some more pops and one accepted append change a message that is queued before and after that append |
| PacketQueue.EmptyPacketLosesData | ga/core/encoder-common.cpp:618-620 | a concrete run from a new queue with an empty packet after which a queued packet has been overwritten |
| PacketQueue.BytesStayUntilPopped | ga/core/encoder-common.cpp:479-623 | through any run of appends, splits and pops the bytes behind a queued packet's pointer stay unchanged as long as no packet that one of them belongs to is popped, and no bad pop or reset occurs |
| PacketQueue.BytesOutlastPops | ga/core/encoder-common.cpp:479-623 | a queued packet with i packets ahead of it keeps its bytes in place through any run without empty packets and resets that pops at most i times, splits included |
| PacketQueue.Queue.constructor | ga/core/encoder-common.cpp:404-427 | the allocated queue is the fresh ring |
| PacketQueue.Queue.ResetChannel | ga/core/encoder-common.cpp:447-455 | the in-place reset is the reset of the ring |
| PacketQueue.Queue.AppendPacket | ga/core/encoder-common.cpp:479-529 | the in-place append, with its retry loop, is `Append` on the ring |
| PacketQueue.Queue.Front | ga/core/encoder-common.cpp:541-551 | returns the first packet, whose region of the live buffer holds the first message; nothing iff the FIFO is empty |
| PacketQueue.Queue.Split | ga/core/encoder-common.cpp:570-593 | the in-place split is `SplitPacket` on the ring and changes only the list |
| PacketQueue.Queue.Pop | ga/core/encoder-common.cpp:600-623 | the in-place pop is `PopFront` on the ring and does not touch the bytes |
| BitReader.PackRoundTrip | ga/client/minih264.cpp:53-72 | reading the bits of a packed bit string, high bit first, gives the bit string |
| BitReader.URoundTrip | ga/client/minih264.cpp:53-72 | reading u(n) behind its code gives the value and leaves the tail |
| BitReader.UeRoundTrip | ga/client/minih264.cpp:74-87 | reading the Exp-Golomb code of n gives n and leaves exactly what follows the code, iff n <= 2^31-2 |
| BitReader.UeIsCanonical | ga/client/minih264.cpp:74-87 | whatever ue(v) reads was the standard's code of the value it returns |
| BitReader.SeBijection | ga/client/minih264.cpp:89-95 | the se(v) mapping is a bijection between code numbers and integers |
| BitReader.SeRoundTrip | ga/client/minih264.cpp:89-95 | the se(v) round trip, exactly for the code numbers that ue(v) can read |
| BitReader.Reader.constructor | ga/client/minih264.cpp:44-51 | the reader starts at the first bit of the buffer |
| BitReader.Reader.NextBit | ga/client/minih264.cpp:57-69 | one turn of the bit loop takes the first remaining bit and moves mask and byte offset past it |
| BitReader.Reader.U | ga/client/minih264.cpp:53-72 | the loop returns the value of the next n bits modulo 2^32, exactly for n <= 32, and consumes them |
| BitReader.Reader.SkipZeros | ga/client/minih264.cpp:76-83 | the counting loop stops behind the first one bit with the number of zeros before it |
| BitReader.Reader.Ue | ga/client/minih264.cpp:74-87 | the loop reads exactly one Exp-Golomb code |
| BitReader.Reader.Se | ga/client/minih264.cpp:89-119 | reads exactly one signed code |
| SpsParser.EntriesRoundTrip | ga/client/minih264.cpp:97-115 | parsing a printed scaling list, with any point at which the printer cuts off a repeated tail, gives back every entry |
| SpsParser.AnyDelta | ga/client/minih264.cpp:106-111 | differences of any size are taken modulo 256 |
| SpsParser.ListsRoundTrip | ga/client/minih264.cpp:170-180 | the same for the 8 or 12 optional lists and their flags |
| SpsParser.ChromaRoundTrip | ga/client/minih264.cpp:153-181 | round trip of the fields of the high profiles |
| SpsParser.OrderRoundTrip | ga/client/minih264.cpp:183-194 | round trip of the picture order fields, with up to 64 reference frame offsets |
| SpsParser.GeometryRoundTrip | ga/client/minih264.cpp:195-202 | round trip of the picture geometry fields |
| SpsParser.CropRoundTrip | ga/client/minih264.cpp:203-209 | round trip of the cropping fields |
| SpsParser.SpsRoundTrip | ga/client/minih264.cpp:148-210 | parsing a printed SPS gives back every stored field and scaling-list entry and stops exactly behind it, for every SPS in range and whatever follows; the printer has its own list of the profiles with chroma fields, and its own numbers and sizes of lists |
| SpsParser.PictureSizeIff | ga/client/minih264.cpp:212-218 | width and height are the standard's iff the standard's fits an `int` and what it crops differs from two samples a unit by a multiple of 2^32, for all field values |
| SpsParser.CropUnitDecides | ga/client/minih264.cpp:212-218 | for sizes that fit, this is so iff nothing is cropped in that direction or its crop unit is two samples |
| SpsParser.Crop444Differs | ga/client/minih264.cpp:215-218 | an SPS in range of a 4:4:4 picture of 1088 rows with 8 cropped, which is 1080 rows by the standard and 1072 by the source |
| SpsParser.ScalingList | ga/client/minih264.cpp:97-115 | the loop fills the array with exactly the entries that are coded |
| SpsParser.ParseLists | ga/client/minih264.cpp:170-180 | the loop reads every flag and every list that is present |
| SpsParser.ParseChroma | ga/client/minih264.cpp:163-181 | the high-profile fields in the source's order |
| SpsParser.ParseOffsets | ga/client/minih264.cpp:190-193 | the loop reads every offset |
| SpsParser.ParseOrder | ga/client/minih264.cpp:183-194 | the picture order fields, by type |
| SpsParser.ParseGeometry | ga/client/minih264.cpp:195-202 | the geometry fields |
| SpsParser.ParseCrop | ga/client/minih264.cpp:203-209 | the cropping fields, zero when absent |
| SpsParser.ParseFields | ga/client/minih264.cpp:148-210 | all fields, in the source's order, are those that `GetSps` reads |
| NalParser.UnescapeEscape | ga/client/minih264.cpp:137-144 | removing 00 00 03 inverts the escaping of section 7.4.1 behind any zeros, and removes an appended 03 iff it looks like an escape |
| NalParser.EncapsulateRoundTrip | ga/client/minih264.cpp:137-144 | the payload of a NAL unit comes back iff it ends in an even number of zeros; otherwise it comes back with the appended 03 behind it |
| NalParser.LoneZeroComesBackLonger | ga/client/minih264.cpp:137-144 | the payload 01 00 comes back as 01 00 03 |
| NalParser.UnescapeInPlace | ga/client/minih264.cpp:137-144 | the two-index loop, which writes into the bytes that it reads from, leaves exactly the unescaped form of the original bytes at the front and every byte behind it as it was |
| NalParser.EscapeHasNoRun | ga/client/minih264.cpp:284-289 | escaped data nowhere contains 00 00 00, 00 00 01 or 00 00 02 |
| NalParser.FirstNalDelimited | ga/client/minih264.cpp:280-316 | for every header and payload, the start code behind the escaped NAL unit is the one that is found: none inside, none across its ends |
| NalParser.FindStart | ga/client/minih264.cpp:282-289 | the loop finds the first start code that has a byte behind it, or 0 |
| NalParser.NalFound | ga/client/minih264.cpp:280-289 | the first NAL unit is found exactly, by itself or in front of others |
| NalParser.SpsStreamRoundTrip | ga/client/minih264.cpp:254-301 | an SPS in range, printed, packed, escaped and put behind a start code, by itself or in front of other NAL units, is accepted; the length of the first of several units is returned and the context holds the SPS that was printed, and nothing else |
| NalParser.PpsStream | ga/client/minih264.cpp:302-317 | a picture parameter set is stored as it came and the length of its NAL unit returned |
| NalParser.SliceStream | ga/client/minih264.cpp:225-250 | of a slice whose bits are a slice header of section 7.3.3 the slice type is stored, in 16 bits, and 4, 3, 1, 5 or 2 for P, B, I, SP or SI |
| NalParser.EscapedSliceStream | ga/client/minih264.cpp:273-275 | although slices are not unescaped, this holds of escaped slices too, for every existing slice type and macroblock numbers below 2^18 - 1 |
| NalParser.OtherStream | ga/client/minih264.cpp:273-320 | of other NAL units only the header is stored; all but the types 2, 3, 4, 20 and 21 count as configuration |
| NalParser.HeaderFields | ga/client/minih264.cpp:270-271 | the header is 32 times the reference field plus the type, which is below 32 |
| NalParser.AcceptedIff | ga/client/minih264.cpp:257-266 | accepted are exactly the buffers of five bytes or more with the start code and a header below 0x80 |
| NalParser.FrameTypes | ga/client/minih264.cpp:231-247 | the stored frame types by slice type modulo 5; none for unknown types |
| NalParser.Context.ParseSps | ga/client/minih264.cpp:121-223 | copy, unescape, read: the context gets the SPS of the body and the picture size |
| NalParser.Context.ParseSlice | ga/client/minih264.cpp:225-250 | the context gets the second element of the slice header in 16 bits, and the frame type of known slice types |
| NalParser.Context.Parse | ga/client/minih264.cpp:254-322 | refused input gives -1 and leaves the context alone; accepted input clears it and fills it by NAL type; the result is the length of the first of several parameter-set NAL units |
| Crc5.EntryIsSerial | ga/core/ga-crc.cpp:14-56 | each of the 512 table entries is what eight register shifts make of its index |
| Crc5.ByteThroughRegister | ga/core/ga-crc.cpp:79-88 | a byte through the bit-serial register is one eight-fold shift of register and byte together, and stays in five bits |
| Crc5.Update | ga/core/ga-crc.cpp:79-113 | the table-driven loop equals the bit-serial reflected register for every byte sequence and starting register |
| Crc5.ChecksumIffResidue | ga/core/ga-crc.h:18-23 | of all five-bit numbers exactly the checksum, sent behind its message, leaves the constant residue in a register that starts with ones (section 8.3.5.1) |
| Crc5.Checksum | ga/core/ga-crc.h:18-23 | initialise, update and finalise compute the five-bit number that leaves the residue |
| Crc5.RegisterLinear | ga/core/ga-crc.cpp:79-88 | registers of two messages differ by the register of their difference |
| Crc5.BurstDetected | ga/core/ga-crc.cpp:9-31 | any difference within five consecutive bits changes both checksums, for messages of any length |
| Crc5.RegisterTracksParity | ga/core/ga-crc.cpp:9-31 | the CCITT register's parity follows the parity of the message |
| Crc5.OddErrorDetected | ga/core/ga-crc.cpp:9-31 | any odd number of differing bits changes the CCITT checksum |
| Crc5.TwoErrorsDetected | ga/core/ga-crc.cpp:9-56 | two wrong bits go undetected iff their distance is a multiple of 31 (USB) or 15 (CCITT) |
| Crc5.UndetectedIffDivisible | ga/core/ga-crc.cpp:9-56 | two messages of one length have equal checksums iff the generator polynomial divides their difference |
| Dpipe.CountsAddUp | ga/core/dpipe.cpp:64-77 | free, queued and held buffers add up to the number of buffers |
| Dpipe.GetFailsIff | ga/core/dpipe.cpp:155-178 | `dpipe_get` returns NULL iff every buffer is held |
| Dpipe.TakerHoldsIt | ga/core/dpipe.cpp:155-254 | get and load return a buffer that nobody holds, and it is the one that is held from then on |
| Dpipe.PutThenGet | ga/core/dpipe.cpp:155-193 | the free list is a stack |
| Dpipe.StepKeeps | ga/core/dpipe.cpp:155-277 | every operation on held buffers keeps the partition of the buffers and the store order |
| Dpipe.RunKeeps | ga/core/dpipe.cpp:155-277 | over any interleaving the free list, the output list and the held set partition the buffers, and the frames that left the output pool followed by those in it are the stored frames, with their contents, in store order |
| Dpipe.PipeIsFifo | ga/core/dpipe.cpp:64-277 | the same from a new pipe, whose buffers are all free and whose histories are empty; free, queued and held buffers always add up to those created |
| Dpipe.DropIff | ga/core/dpipe.cpp:165-174 | a frame is dropped iff a buffer is taken while none is free and some frame is queued, and then it is the eldest |
| Dpipe.Pipe.constructor | ga/core/dpipe.cpp:64-77 | the loop builds an acyclic free list of exactly nframe new buffers |
| Dpipe.Pipe.GetBuffer | ga/core/dpipe.cpp:155-178 | takes the first free node or evicts the first output node; both lists stay linked, counts and tail pointer right |
| Dpipe.Pipe.PutBuffer | ga/core/dpipe.cpp:186-193 | links the buffer in front of the free list |
| Dpipe.Pipe.LoadNowait | ga/core/dpipe.cpp:241-254 | unlinks the first output node, clearing the tail pointer exactly when the list becomes empty |
| Dpipe.Pipe.StoreBuffer | ga/core/dpipe.cpp:263-277 | links the buffer behind the last output node |
| ControlQueue.FreshInv | ga/core/controller.cpp:69-79 | a new queue of any size is empty and holds a whole number of slots of four bytes more than the largest message; its first slot is inside the buffer iff the size is at least one unit |
| ControlQueue.WriteRefines | ga/core/controller.cpp:133-166 | a write enqueues iff the message fits a slot and fewer than n-1 messages are queued; then the message (its length kept in 16 bits) is last in the FIFO and its size is returned; otherwise 0 and no change |
| ControlQueue.FullIff | ga/core/controller.cpp:148-155 | the full test holds iff n-1 messages are queued |
| ControlQueue.ReadRefines | ga/core/controller.cpp:90-106 | read points to the slot of the first message, or to nothing iff the FIFO is empty |
| ControlQueue.ReleaseRefines | ga/core/controller.cpp:108-131 | release drops exactly the first message |
| ControlQueue.RunIsFifo | ga/core/controller.cpp:69-172 | over any interleaving the indices stay multiples of the unit inside the buffer, at most n-1 messages are queued, and messages released followed by messages queued are those accepted, in order |
| ControlQueue.ReaderSlotStays | ga/core/controller.cpp:90-166 | the slot handed to the reader keeps every byte, and stays first, through any number of writes |
| ControlQueue.Controller.constructor | ga/core/controller.cpp:69-79 | allocates whole slots for any size; there is a slot to write to iff the size is at least one unit |
| ControlQueue.Controller.FreeQueue | ga/core/controller.cpp:81-88 | the buffer is gone and the indices are zero |
| ControlQueue.Controller.ReadMsg | ga/core/controller.cpp:90-106 | the in-place read is `Read` |
| ControlQueue.Controller.ReleaseMsg | ga/core/controller.cpp:108-131 | the in-place release is `Release` and changes only the head |
| ControlQueue.Controller.WriteMsg | ga/core/controller.cpp:133-166 | the in-place write is `Write`, bytes included |
| ControlQueue.Controller.ClearQueue | ga/core/controller.cpp:168-172 | both indices return to zero |
| TcpStream.FramesConcat | ga/core/controller.cpp:432-476 | cutting a stream anywhere does not change the messages in it |
| TcpStream.ProcessRefines | ga/core/controller.cpp:432-476 | from one read to the next the loop hands on exactly the whole messages of its window; where the leftover bytes are read from next, and when they are copied to the front |
| TcpStream.ReceiveRefines | ga/core/controller.cpp:407-476 | a chunk that finds the leftover bytes at the front is framed with them; as written the next one finds them there iff no message was taken out or nothing is left |
| TcpStream.AtFrontIffCleanCuts | ga/core/controller.cpp:407-476 | as written, every refill of a run finds `bufhead` at 0 iff no chunk but the last ends a message and begins another |
| TcpStream.RunFrames | ga/core/controller.cpp:401-476 | for any chunks the messages handed on are those of the whole stream: with compaction always, as written when the cuts are clean |
| TcpStream.StreamDelivered | ga/core/controller.cpp:401-476 | for any chunking of a stream of messages of length 2 to 8192, exactly those messages are handed on, in order: with compaction always, as written when no chunk but the last ends a message and begins another |
| TcpStream.FramedDelivered | ga/core/controller.cpp:401-476 | whatever bodies of up to 8190 bytes are sent behind their lengths, high byte first, and however they are cut, exactly these messages are handed on, in order: with compaction always, as written when, by lengths alone, no chunk but the last ends a message and begins another |
| TcpStream.CleanIffBetween | ga/core/controller.cpp:401-476 | for a stream of messages, clean cuts are a matter of lengths alone |
| TcpStream.DeliveredIffClean | ga/core/controller.cpp:401-476 | as written, when the cuts so far are clean, the next cut is clean iff, whatever bytes complete the message that is begun, all messages are handed on |
| TcpStream.StreamDeliveredIff | ga/core/controller.cpp:401-476 | the same from the start of the loop, for any beginning of a stream of messages: clean cuts are not only enough but needed |
| TcpStream.CompletionLost | ga/core/controller.cpp:432-450 | whatever the buffer holds, when leftover bytes that begin a message are read behind its front, some bytes complete the message and it is not among the messages then handed on |
| TcpStream.RefillAppendsIff | ga/core/controller.cpp:407-417 | for every length that stays in the buffer: a refill of that length appends to the leftover bytes whatever arrives iff `bufhead` is 0 |
| TcpStream.SplitLengthLosesMessage | ga/core/controller.cpp:433-435 | a stream of two messages, cut inside the second length, of which the loop as written hands on only the first |
| TcpStream.SplitBodyLosesMessage | ga/core/controller.cpp:447-449 | the same stream, cut behind the second length, of which it hands on only the first as well |
| TcpStream.ZeroStallsForever | ga/core/controller.cpp:441-444 | behind a message of length zero at the front of the buffer nothing is handed on any more, whatever arrives |
| TcpStream.ZeroLengthRepeats | ga/core/controller.cpp:441-444 | a message of length zero behind another in one chunk makes the loop hand on the other one twice |
| TcpStream.PrefixFrames | ga/core/controller.cpp:440-450 | any beginning of a stream of messages leaves less than a message over, so there is always room to read more |
| TcpStream.Receiver.OnReceive | ga/core/controller.cpp:407-476 | the in-place loop, as written, is `Receive` without compaction |
| TcpStream.Receiver.HandOne | ga/core/controller.cpp:432-476 | one turn of the in-place loop hands on one message or stops |
| AudioBuffer.SizeAddsIff | ga/core/asource.cpp:66 | byte sizes add up over frames within the capacity iff the dropped bits of a full buffer make less than a byte |
| AudioBuffer.ExactIff | ga/core/asource.cpp:85-188 | on every run of fills, reads and purges from a new buffer the queued bytes stay those of the queued frames, iff the format is such (tight): a frame has a byte and the dropped bits of a full buffer make less than one |
| AudioBuffer.TwelveBitsDrift | ga/core/asource.cpp:85-124 | after two fills of one frame of twelve bits, two bytes stand for frames of three |
| AudioBuffer.PtsExactIff | ga/core/asource.cpp:85-188 | for every usable format, `bufPts` counts the frames of exactly the bytes read, on every run from a new buffer as long as it stays in the buffer, iff a frame is a whole number of bytes |
| AudioBuffer.FreshInv | ga/core/asource.cpp:50-71 | a new buffer of a tight format meets the invariant and is empty |
| AudioBuffer.FillRefines | ga/core/asource.cpp:85-124 | a fill is accepted iff queued plus new frames are within capacity; then its bytes are last in the FIFO, compaction or not; otherwise nothing changes |
| AudioBuffer.RetryOnce | ga/core/asource.cpp:94-121 | after one compaction the fill succeeds |
| AudioBuffer.CompactedKeeps | ga/core/asource.cpp:117-120 | the overlapping copy to the front keeps the contents |
| AudioBuffer.ReadRefines | ga/core/asource.cpp:156-172 | a read returns the first min(asked, queued) frames and removes them |
| AudioBuffer.RunIsFifo | ga/core/asource.cpp:85-188 | over any interleaving, since the last purge bytes read followed by bytes queued are the bytes accepted, and never more frames than the capacity are queued |
| AudioBuffer.Source.constructor | ga/core/asource.cpp:60-71 | allocates the capacity in bytes |
| AudioBuffer.Source.FillOne | ga/core/asource.cpp:84-124 | the in-place fill with its retry loop is `Fill`, with zeros for missing data |
| AudioBuffer.Source.ReadFrames | ga/core/asource.cpp:138-177 | the in-place read is `Read`, for every state whose read stays in the buffer |
| AudioBuffer.Source.PurgeAll | ga/core/asource.cpp:179-188 | the in-place purge is `Purge` |
| Bandwidth.WrapIff | ga/client/rtspclient.cpp:603-607 | the 16-bit difference is the true number missing iff true numbers go up by 1 to 65536 |
| Bandwidth.UpdateRefines | ga/client/rtspclient.cpp:563-615 | a packet extends the summary of its window, or reports that summary, with the capacity of its samples, and starts a window with the record of a first packet |
| Bandwidth.ResetsIff | ga/client/rtspclient.cpp:569-578 | a report is made iff a sample is taken in a window of 240 frames or more that has, with it, 3000 samples or more |
| Bandwidth.CapacityIsQuotient | ga/client/rtspclient.cpp:580 | the capacity is eight million times the bytes by the microseconds sampled, rounded down |
| Bandwidth.ElapsedIff | ga/client/rtspclient.cpp:572 | the time counted for a sample is the true one iff the packets are in order and less than 2^32 microseconds apart |
| Bandwidth.RunCountsTruly | ga/client/rtspclient.cpp:545-616 | through any run with such gaps the record is the summary, by true numbers, of the packets since the last report: pktcount is last-first+1, pktloss is that minus the packets received |
| Bandwidth.RunAccounts | ga/client/rtspclient.cpp:545-616 | over any such run the counts of all reports and of the record together are those of the whole run by true numbers: packets expected, packets missing, bytes and time; each report splits one frame in two |
| Bandwidth.WholeTurnUncounted | ga/client/rtspclient.cpp:603-607 | of a jump by 65537 none of the 65536 missing packets is counted |
| Bandwidth.SourcesAreIndependent | ga/client/rtspclient.cpp:550-562 | however sources are interleaved, a record depends on its own source's packets only |
| Bandwidth.WatchlistCountsTruly | ga/client/rtspclient.cpp:545-616 | every record of the watchlist is the summary of its source's packets from that source's last report on, or from its first packet if there was none |
| Bandwidth.Estimator.UpdateEstimate | ga/client/rtspclient.cpp:545-616 | the in-place update is `Watch` on the map, and what it reports |

## Left out

- Sockets, codecs, windows, threads, module loading, logging and files: calls into other code.
- `dpipe_load`: its waits are left out; the critical section behind a wait is `Dpipe.Pipe.LoadNowait`.
- `audio_source_buffer_read`: the timed wait before the read is left out; the read is modelled from then on.
- Memory allocation never fails, and the registry of pipe names and the list of audio clients are left out.
- Queue callbacks, the `gettimeofday` fallback of append, and `ctrl_server_readnext`, a copy between read and release.
- 32-bit overflow of sizes and positions in the queues, which are bounded by their buffers, and of the estimator's counters.
- Bandwidth.UpdateRefines: the capacity is the exact quotient rounded down, not that of doubles, and absent when the sampled time is zero.
- BitReader.Reader.Ue: more than 30 leading zeros are excluded, because the source's shift of an `int` is undefined there; so is reading past the buffer, which the source marks as not handled.
- SpsParser.OrderRoundTrip: more than 64 reference frame offsets are excluded, because the source's array has 64 entries.
- NalParser.Context.Parse: requires the bits that the parser reads to be in the buffer, which the source does not check; what it reads behind it is not defined.
- NalParser.Context.ParseSps: the same, for the bits of the SPS.
- NalParser.Context.ParseSlice: the same, for the two codes of the slice header.
- SpsParser.HighProfile: profiles 139, 134 and 135, for which later editions of section 7.3.2.1.1 also code the high-profile fields, are in neither the source's list nor that of the printer (`CodesChroma`), which follows the earlier editions.
- The use-default flag of a scaling list, which the source computes into a parameter passed by value and so discards.
- VUI parameters are not parsed by the source; the model prints any bits in their place.
- ControlQueue.ReaderSlotStays: clearing or freeing the queue while a reader holds a slot is excluded, since either lets the slot be reused.
- ControlQueue.Controller.WriteMsg: a write of a message that fits a unit to a queue made with a size below one unit is excluded; the source then writes outside its empty buffer.
- A negative message size, which the source's unsigned comparison can let through.
- TcpStream.Receiver.HandOne: requires that no byte behind the end of the buffer is read, as below.
- TcpStream.Receiver.OnReceive: requires that no byte behind the end of the buffer is read, which the loop as written can do once `bufhead` is not zero; what it reads there is not defined.
- AudioBuffer.Source.ReadFrames: requires the bytes copied to be in the buffer; in a format that is not tight the source can copy bytes from behind it.
- TcpStream.StreamDelivered: says nothing of zero-length messages, on which the source stops or starts over (`ZeroStallsForever`, `ZeroLengthRepeats`), nor of the handshake, with which the source discards whatever arrived in the same read; the UDP branch of the loop has no buffering.
- `crc5_reflect`, which nothing calls, and the packet loss monitor `pktloss_monitor_update`, whose comparison does not survive the wrap of the sequence number.
- The colour codes of the video source, `minivp8.cpp`, `vconverter.cpp`, configuration, key maps and statistics: field reads and table lookups that would only add easy members.
